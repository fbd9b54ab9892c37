/** backend/routes/image_routes.py: request checks and reply shaping around
    the image service. Both handlers re-raise their own HTTPException, so
    their 400s reach the client unchanged. */
module ImageRoutes {

  import opened Outcomes
  import opened Text
  import opened Tables
  import opened Database
  import opened ImageService

  const EMPTY_IMAGE_NAME: string := "Image name cannot be empty"
  const INVALID_USER_ID: string := "Valid user_id is required"

  datatype AddImageReply = AddImageReply(imageId: int, imageName: string, userId: int, status: string)

  datatype UserImagesReply = UserImagesReply(userId: int, images: seq<ImageRecord>, count: nat, status: string)

  /** `add_image_match_endpoint`: a blank name is refused first, then a
      user id below 1; otherwise the trimmed name is stored. */
  method AddImageMatchEndpoint(imageMatches: Table<ImageMatch>, imageName: string, userId: int)
    returns (r: Http<AddImageReply>)
    requires imageMatches.Valid()
    modifies imageMatches
    ensures imageMatches.Valid()
    ensures IsBlank(imageName) ==> r == Fail(400, EMPTY_IMAGE_NAME)
    ensures !IsBlank(imageName) && userId < 1 ==> r == Fail(400, INVALID_USER_ID)
    ensures r.Fail? ==> unchanged(imageMatches)
    ensures r.Ok? <==> !IsBlank(imageName) && userId >= 1
    ensures r.Ok? ==>
      && r.body == AddImageReply(old(imageMatches.lastId) + 1, Strip(imageName), userId, "success")
      && imageMatches.rows == old(imageMatches.rows) + [Row(r.body.imageId, ImageMatch(Strip(imageName), userId))]
  {
    if imageName == [] || IsBlank(imageName) {
      return Fail(400, EMPTY_IMAGE_NAME);
    }
    if userId < 1 {
      return Fail(400, INVALID_USER_ID);
    }
    var result := AddImageMatch(imageMatches, Strip(imageName), userId);
    return Ok(AddImageReply(result.imageId, result.imageName, result.userId, "success"));
  }

  /** A stored image name never starts or ends with whitespace. */
  lemma StoredNameIsTrimmed(imageName: string)
    requires !IsBlank(imageName)
    ensures var s := Strip(imageName);
      s != [] && !IsSpace(s[0]) && !IsSpace(s[|s| - 1]) && Strip(s) == s
  {
    StripIdempotent(imageName);
  }

  /** `get_user_images_endpoint`: a user id below 1 is refused; otherwise
      the reply echoes the id and counts the user's images. */
  method GetUserImagesEndpoint(imageMatches: Table<ImageMatch>, userId: int) returns (r: Http<UserImagesReply>)
    ensures userId < 1 <==> r == Fail(400, INVALID_USER_ID)
    ensures r.Ok? ==>
      && r.body.userId == userId
      && r.body.count == |r.body.images| == |Select(imageMatches.rows, OwnedBy(userId))|
      && (forall k :: 0 <= k < |r.body.images| ==>
            r.body.images[k] == ToRecord(Select(imageMatches.rows, OwnedBy(userId))[k])
            && r.body.images[k].userId == userId)
      && (forall x :: x in imageMatches.rows && x.value.userId == userId ==> ToRecord(x) in r.body.images)
      && r.body.status == "success"
  {
    if userId < 1 {
      return Fail(400, INVALID_USER_ID);
    }
    var images := GetImagesByUser(imageMatches, userId);
    return Ok(UserImagesReply(userId, images, |images|, "success"));
  }
}
