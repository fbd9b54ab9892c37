/** backend/services/image_service.py: record which user an image belongs
    to, and list a user's images. */
module ImageService {

  import opened Tables
  import opened Database

  /** The dictionary both service functions return. */
  datatype ImageRecord = ImageRecord(imageId: int, imageName: string, userId: int)

  /** `WHERE user_id = ?` */
  function OwnedBy(userId: int): Row<ImageMatch> -> bool {
    (r: Row<ImageMatch>) => r.value.userId == userId
  }

  function ToRecord(row: Row<ImageMatch>): ImageRecord {
    ImageRecord(row.id, row.value.imageName, row.value.userId)
  }

  /** `add_image_match`: one new row, with no check for a repeated
      (name, user) pair; the reply echoes the arguments with the new id. */
  method AddImageMatch(imageMatches: Table<ImageMatch>, imageName: string, userId: int) returns (r: ImageRecord)
    requires imageMatches.Valid()
    modifies imageMatches
    ensures imageMatches.Valid()
    ensures r.imageName == imageName && r.userId == userId
    ensures r.imageId == old(imageMatches.lastId) + 1
    ensures forall k :: 0 <= k < |old(imageMatches.rows)| ==> old(imageMatches.rows)[k].id < r.imageId
    ensures imageMatches.rows == old(imageMatches.rows) + [Row(r.imageId, ImageMatch(imageName, userId))]
  {
    var imageId := imageMatches.Insert(ImageMatch(imageName, userId));
    return ImageRecord(imageId, imageName, userId);
  }

  /** `get_images_by_user`: the matching rows, turned into dictionaries one
      by one. */
  method GetImagesByUser(imageMatches: Table<ImageMatch>, userId: int) returns (images: seq<ImageRecord>)
    ensures var matching := Select(imageMatches.rows, OwnedBy(userId));
      && |images| == |matching|
      && forall k :: 0 <= k < |images| ==> images[k] == ToRecord(matching[k])
    ensures forall k :: 0 <= k < |images| ==> images[k].userId == userId
    ensures forall x :: x in imageMatches.rows && x.value.userId == userId ==> ToRecord(x) in images
  {
    var rows := Select(imageMatches.rows, OwnedBy(userId));
    SelectExact(imageMatches.rows, OwnedBy(userId));
    images := [];
    for i := 0 to |rows|
      invariant |images| == i
      invariant forall k :: 0 <= k < i ==> images[k] == ToRecord(rows[k])
    {
      images := images + [ToRecord(rows[i])];
    }
    forall x | x in imageMatches.rows && x.value.userId == userId ensures ToRecord(x) in images {
      var k :| 0 <= k < |rows| && rows[k] == x;
      assert images[k] == ToRecord(x);
    }
  }

  /** An image added for a user is the last one listed for that user, and
      listing any other user gives what it gave before. */
  lemma AddedImageListedForOwnerOnly(rows: seq<Row<ImageMatch>>, added: Row<ImageMatch>, other: int)
    requires other != added.value.userId
    ensures Select(rows + [added], OwnedBy(added.value.userId)) == Select(rows, OwnedBy(added.value.userId)) + [added]
    ensures Select(rows + [added], OwnedBy(other)) == Select(rows, OwnedBy(other))
  {
    SelectAppend(rows, added, OwnedBy(added.value.userId));
    SelectAppend(rows, added, OwnedBy(other));
  }
}
