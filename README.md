# Potato grading: a verified model of the core

The system grades potatoes from photographs. A classifier script
(`MaskrcnnGradAidAg.py`, in two copies) measures every detected object and
numbers it on the drawn image and in the CSV. It then grades each row by
weight: the backend copy uses two grades and prices each row; the top-level
copy uses six size buckets. A FastAPI backend keeps users, image matches and
per-object analyses in SQLite. It also serves the output directory, an
admin query console and profit records. A React front end shifts the
per-image object numbers to be 1-based, prices a user's analyses for the
"bin" or "conveyor" scenario, and manages a list of uploads.

The modules follow the source files. The two copies of the classifier
share `ContourFeatures` (the measurements, the mask loop and the image
loop); `BackendClassifier` and `TopLevelClassifier` hold each copy's
grading and final table. Three further modules are shared by the rest:

- `Outcomes`: the `Option`, `Http` (a body, or a status code and detail) and `Call` (returned or raised) datatypes.
- `Text`: Python's `str.strip`, `upper`, `lower` and `os.path.splitext`, and Starlette's text for an `HTTPException`.
- `Tables`: one SQLite `AUTOINCREMENT` table. It is a class whose rows are kept in rowid order, plus the last id handed out.

Code that changes state is modelled as methods over these tables and
classes; code that only computes is modelled as functions. Loops in the
source are `for` loops here, each proved against a function that specifies
it.

- **Tables.** `Tables.Table<T>` holds the rows and the sequence counter. The user, image-match and analysis tables are instances of it. The services are module-level methods over it.
- **HTTP handlers.** Each handler returns an `Http` value. Where a handler's broad `except Exception` catches its own `HTTPException`, the model states the 500 that reaches the client, with the detail text that results.
- **Outside inputs.** What the database, the file system, the network or OpenCV would return is a parameter. This covers a query result, a directory listing, a CSV's rows, a mask's measurements, an upload's answer and the weight power law.

## Model

| member | source | states |
|---|---|---|
| Pricing.CalculatePricingSummary | frontend/src/services/PricingService.ts:36-88 | empty input gives five zeros; otherwise the proportions are count/n and (n-count)/n; profit = revenue - penalty; the conveyor penalty is 0; the penalty is never negative |
| Pricing.MarketableCount | frontend/src/services/PricingService.ts:25-27 | the count of records whose grade is exactly "Marketable" is at most the list length |
| Pricing.MarketableCountAppend | frontend/src/services/PricingService.ts:58 | appending one record adds 1 exactly when its grade is "Marketable" |
| Pricing.MarketableCountIsMultiplicity | frontend/src/services/PricingService.ts:58 | the count equals the number of times "Marketable" occurs among the grades, whatever the order |
| Pricing.Proportions | frontend/src/services/PricingService.ts:57-62 | for 0 < n and m <= n, m/n and (n-m)/n lie in [0, 1], sum to 1, and m/n times n gives m back |
| Pricing.BinPenalty | frontend/src/services/PricingService.ts:66-68 | bin penalty = abs(p - 0.35) * 20 * 0.15, and it is 0 exactly when p = 0.35 |
| Pricing.RevenueBounds | frontend/src/services/PricingService.ts:74-79 | revenue = p*20*0.56 + (1-p)*20*0.008, between 0.16 and 11.2 for non-empty input |
| Pricing.ConveyorNeverBelowBin | frontend/src/services/PricingService.ts:64-80 | the scenario changes only the penalty; conveyor profit is at least bin profit |
| Pricing.ShiftKeepsPricing | frontend/src/services/PricingService.ts:42-58 | pricing is the same before and after the front end's object-number shift |
| Pricing.ShiftKeepsCount | frontend/src/services/PricingService.ts:58 | the shift keeps the marketable count |
| Pricing.BinExample | frontend/src/services/PricingService.ts:56-88 | grades [M, M, N, N] in bin give profit 5.23, revenue 5.68, penalty 0.45 and proportions 0.5 / 0.5 |
| Pricing.ConveyorExample | frontend/src/services/PricingService.ts:56-88 | the same grades on the conveyor give profit = revenue = 5.68 and no penalty |
| UserAnalysis.ShiftIndices | frontend/src/services/UserAnalysis.ts:119-122 | same number of records as received |
| UserAnalysis.UnshiftIndices | frontend/src/services/UserAnalysis.ts:119-122 | the inverse map keeps the length |
| UserAnalysis.ShiftIndicesAt | frontend/src/services/UserAnalysis.ts:119-122 | record k's object_id_in_image goes up by exactly 1; every other field is unchanged |
| UserAnalysis.ShiftAll | frontend/src/services/UserAnalysis.ts:119-122 | every record k of the result is record k shifted, in the same order |
| UserAnalysis.ShiftRoundTrip | frontend/src/services/UserAnalysis.ts:119-122 | subtracting 1 again gives back the records the server sent |
| UserAnalysis.ErrorMessage | frontend/src/services/UserAnalysis.ts:112-115 | a non-empty detail is the message; otherwise "HTTP error! status: N" |
| UserAnalysis.GetUserAnalyses | frontend/src/services/UserAnalysis.ts:102-128 | it returns exactly on an OK reply, with the records shifted and the other fields kept; a non-OK reply throws the error message; a network failure rethrows |
| UserAnalysis.GetAllUserAnalyses | frontend/src/services/UserAnalysis.ts:134-159 | the same rule and the same +1 shift for the all-users list |
| ContourFeatures.ExtractContourDimensions | backend/MaskrcnnGradAidAg.py:112-146 | None iff area < 10; otherwise the box corners are x, y, x+w, y+h; the center is truncated toward zero; width <= length are the two sides; volume is area * (4/3) * (width/2) when width > 0 and 0 otherwise; solidity and strict solidity are 0 exactly under their guards and otherwise the stated ratios |
| ContourFeatures.Trunc | backend/MaskrcnnGradAidAg.py:129 | `int()` truncates toward zero |
| ContourFeatures.AcceptedIndices | backend/MaskrcnnGradAidAg.py:199-216 | the kept mask indices are below n |
| ContourFeatures.AcceptedIndicesExact | backend/MaskrcnnGradAidAg.py:199-216 | exactly the masks with a contour of area >= 10 that avoid the border are kept, in increasing order |
| ContourFeatures.ColumnsUpToRows | backend/MaskrcnnGradAidAg.py:230-241 | every column gains one value per kept mask; object_id_in_image is the list of kept mask indices; row k is the measurement of the k-th kept mask |
| ContourFeatures.ProcessImageFeatures | backend/MaskrcnnGradAidAg.py:172-259 | a negative border width raises before any processing; otherwise count = number of kept masks, the returned counter = start + count, the columns are the specified ones, and the k-th drawn label reads start+k+1 and sits on the k-th row's image, mask and center |
| ContourFeatures.RowsOf | backend/MaskrcnnGradAidAg.py:243 | a frame has as many rows as values in a column |
| ContourFeatures.DeriveMeasures | backend/MaskrcnnGradAidAg.py:291-300 | lw_ratio is null iff a side is 0, else length/width; area_in2 = area * (9/425)^2; the weight is null iff area <= 0, and otherwise the power law applied to area_in2 * 1.5 |
| ContourFeatures.ImageFrame | backend/MaskrcnnGradAidAg.py:374-382 | the frame built for a readable image is well-formed and its rows are exactly that image's kept masks, in mask order |
| ContourFeatures.AddFrame | backend/MaskrcnnGradAidAg.py:386-387 | keeping a non-empty frame appends exactly its rows to the combined rows |
| ContourFeatures.AllRowsLargeEnough | backend/MaskrcnnGradAidAg.py:207-209 | every row of every image has an area of at least 10 |
| ContourFeatures.UnreadableStep | backend/MaskrcnnGradAidAg.py:368-371 | an unreadable image changes neither the frames, the labels nor the counter |
| ContourFeatures.ReadableStep | backend/MaskrcnnGradAidAg.py:373-387 | a readable image appends its rows and its labels, numbered on from the counter, and advances the counter by its row count |
| ContourFeatures.ProcessAllImages | backend/MaskrcnnGradAidAg.py:358-392 | the combined rows of the kept frames are the readable images' kept masks, image after image; the counter is their number; the k-th label drawn reads k+1 and marks the k-th combined row's object; only non-empty frames are kept; every row has area >= 10 |
| BackendClassifier.AssignGrade | backend/MaskrcnnGradAidAg.py:85-90 | "Marketable" iff 5.3 <= w < 28.2, otherwise "Not Marketable"; no other outcome |
| BackendClassifier.PriceUsd | backend/MaskrcnnGradAidAg.py:305-307 | 0.56 for Marketable, 0.008 for Not Marketable, NaN (None) otherwise |
| BackendClassifier.FinalizeDataAndSave | backend/MaskrcnnGradAidAg.py:265-307 | nothing is saved iff there are no rows; row k gets object_id k+1 and its features; the grade is null iff the weight is null; otherwise the grade is `assign_grade(weight)`; the price follows the grade |
| BackendClassifier.ClassifyAll | backend/MaskrcnnGradAidAg.py:358-395 | the CSV rows are the images' kept objects in order; the label drawn for row k reads its object_id and sits on that row's image, mask and center; every saved row is graded and priced |
| TopLevelClassifier.AssignGrade | MaskrcnnGradAidAg.py:74-83 | Not Marketable iff w < 5.3 or w >= 28.2; Medium, Large 1, Large 2 and Extra Large exactly on their intervals |
| TopLevelClassifier.AgreesWithBackend | MaskrcnnGradAidAg.py:74-83 | a weight is Not Marketable in the six-bucket copy iff it is Not Marketable in the binary copy |
| TopLevelClassifier.NeverMarketable | MaskrcnnGradAidAg.py:74-83 | every weight maps to one of five labels, never to "Marketable" |
| TopLevelClassifier.FinalizeDataAndSave | MaskrcnnGradAidAg.py:258-297 | nothing is saved iff there are no rows; the index is 1-based; the grade is null iff the weight is null, otherwise the six-bucket grade |
| TopLevelClassifier.SameRowsAsBackend | MaskrcnnGradAidAg.py:258-297 | the two copies save the same rows, ids and measures; a row is Not Marketable in one iff it is in the other |
| Tables.Select | backend/database.py:83 | a `WHERE` selection returns matching rows of the table, no more than it has |
| Tables.SelectExact | backend/services/image_service.py:52-56 | a row is selected iff it is in the table and matches |
| Tables.SelectIncreasing | backend/user_analysis_service.py:35-45 | selected rows stay in increasing id order |
| Tables.SelectSplit | backend/user_analysis_service.py:74-78 | the matching and non-matching rows together are as many as the table |
| Tables.SelectAppend | backend/services/image_service.py:21-24 | selecting after an insert adds the new row at the end iff it matches |
| Tables.SelectById | backend/database.py:83 | at most one row has a given id, and exactly one iff the id is present |
| Tables.SelectEmpty | backend/services/user_service.py:21-22 | the selection is empty iff no row matches |
| Tables.SelectFirst | backend/services/user_service.py:21-22 | for a non-empty selection, its first row is the first matching row of the table |
| Tables.FetchOne | backend/database.py:84 | None iff the result is empty, otherwise its first row |
| Tables.Table.constructor | backend/database.py:21-62 | a new table is empty with sequence 0 |
| Tables.Table.Insert | backend/database.py:72-74 | the row is appended with id = last id + 1, greater than every earlier id |
| Tables.Table.Delete | backend/database.py:103-105 | the rows left are the non-matching ones, in order; the sequence is kept; the count is the number removed |
| Database.Schema.constructor | backend/database.py:15-18 | no tables exist before `init_db` |
| Database.Schema.InitDb | backend/database.py:15-65 | afterwards all three tables exist; re-running it changes nothing; no rows are touched |
| Database.AddUser | backend/database.py:68-76 | one row is inserted and its fresh id is returned |
| Database.AddUserTwice | backend/database.py:68-76 | the same name twice gives two rows with distinct ids |
| Database.GetUser | backend/database.py:79-86 | the row with that id, or None iff no row has it |
| Database.GetAllUsers | backend/database.py:89-96 | exactly the rows of the table, in id order |
| Database.DeleteUser | backend/database.py:99-107 | exactly the row with that id is removed; the count is 0 or 1, and 1 iff the id existed |
| UserService.ExistingUser | backend/services/user_service.py:21-22 | None iff no row has the name; otherwise the first row with it |
| UserService.GetOrCreateName | backend/services/user_service.py:4-43 | an existing name returns its id with is_new_name 0 and the table unchanged; an absent one inserts one row with a fresh id and is_new_name 1; afterwards the name maps to the returned id |
| UserService.GetOrCreateNameTwice | backend/services/user_service.py:4-43 | two calls return the same id, the second with is_new_name 0; the table grows by at most one row and keeps its earlier rows |
| ImageService.AddImageMatch | backend/services/image_service.py:4-33 | one row is inserted; the given name and user id are returned with a fresh image_id |
| ImageService.GetImagesByUser | backend/services/image_service.py:36-67 | exactly the user's rows, in table order, each carrying that user_id |
| ImageService.AddedImageListedForOwnerOnly | backend/services/image_service.py:21-24 | an added image shows up at the end of its owner's list and in no other user's list |
| AnalysisService.AsRecordKeepsFields | backend/user_analysis_service.py:12-22 | a stored row gives back all 18 fields it was inserted with, plus its object_id |
| AnalysisService.AsRecordsKeepMembers | backend/user_analysis_service.py:35-47 | records keep the increasing id order, and a record is listed iff its row is |
| AnalysisService.AddAnalysis | backend/user_analysis_service.py:4-27 | one row holding the fields is appended under a fresh object_id |
| AnalysisService.GetUserAnalyses | backend/user_analysis_service.py:30-47 | one record per row of that user: every record is a row of the table and belongs to that user, every row of that user is listed, and object_id increases |
| AnalysisService.GetAllAnalyses | backend/user_analysis_service.py:50-66 | every row, in increasing object_id |
| AnalysisService.DeleteUserAnalyses | backend/user_analysis_service.py:69-78 | all of that user's rows go and the others stay in order; the count is the number removed |
| AnalysisService.DeleteAnalysis | backend/user_analysis_service.py:81-90 | only the row with that object_id goes; the count is 0 or 1, and 1 iff it existed |
| Server.FirstFailure | backend/server.py:33-43 | the first part that fails (a non-image content type or a failed write), with none before it |
| Server.UploadFiles | backend/server.py:26-52 | with no failure, every file is saved and the reply says "Successfully uploaded N files"; otherwise the reply is a 500 carrying the failure, and only the files before it are saved |
| Server.UploadNeverAnswers400 | backend/server.py:35-52 | a non-image part surfaces as a 500 whose detail is the text "400: File X is not an image" |
| Server.FileType | backend/server.py:68-69 | "image" iff the lower-cased extension is one of five; "csv" iff it is ".csv"; "other" otherwise |
| Server.ExtensionLower | backend/server.py:68 | the extension of a lower-cased name is the lower-cased extension |
| Server.FileTypeIgnoresCase | backend/server.py:68-69 | the type does not depend on letter case |
| Server.LeadingDotIsOther | backend/server.py:68-69 | a name such as ".png" has no extension, so it is "other" |
| Server.UpperCaseImage | backend/server.py:68-69 | "scan.PNG" is an image |
| Server.RegularFilesExact | backend/server.py:63-75 | exactly the regular files are listed, each with its type and size |
| Server.ListOutputFiles | backend/server.py:54-84 | a missing directory gives an empty list and the message; otherwise the regular files in listing order, with count = length |
| Server.GetOutputFile | backend/server.py:86-114 | missing gives 404, not a file gives 400 (both passed through), any other error gives 500; otherwise the file, with octet-stream when the type is unknown |
| Server.GetCsvContent | backend/server.py:116-155 | a name not ending in ".csv" gives 400 and a missing file 404; an unreadable file gives 500; an empty file gives empty headers and data; otherwise headers = the first row, data = the rest, row_count = length of data |
| Server.CsvCaseMismatch | backend/server.py:122-123 | "a.CSV" is refused by the CSV endpoint although the file listing (backend/server.py line 69) calls it a CSV |
| AdminRoutes.ExecuteQuery | backend/routes/admin_routes.py:15-57 | a non-SELECT gives 400, passed through; a database failure gives 500 "Query execution failed: ..."; otherwise columns are empty when there is no description, each row is zipped with the columns, and row_count = length |
| AdminRoutes.Zip | backend/routes/admin_routes.py:43 | the keys are exactly the first n column names |
| AdminRoutes.ZipValue | backend/routes/admin_routes.py:43 | a column name that is not repeated later maps to its own value, so a repeated name keeps its last value |
| AdminRoutes.GuardIsPrefixTest | backend/routes/admin_routes.py:21-24 | any whitespace, then any case spelling of "select", then anything at all, passes the guard |
| AdminRoutes.OutputImagesExact | backend/routes/admin_routes.py:133-143 | exactly the regular files with one of the six extensions are listed |
| AdminRoutes.ListedImagesVersusFileTypes | backend/routes/admin_routes.py:137-138 | the admin listing's images are the file listing's images plus ".webp" files, which the file listing calls "other" |
| AdminRoutes.ListOutputImages | backend/routes/admin_routes.py:123-149 | a missing directory gives an empty list and the message; otherwise the listed images in listing order, with count = length |
| ImageRoutes.AddImageMatchEndpoint | backend/routes/image_routes.py:18-44 | a blank name gives 400 first, then a user id < 1 gives 400, with the table unchanged; otherwise the trimmed name is stored under a fresh id and echoed |
| ImageRoutes.StoredNameIsTrimmed | backend/routes/image_routes.py:32 | the stored name has no leading or trailing whitespace, and trimming it again changes nothing |
| ImageRoutes.GetUserImagesEndpoint | backend/routes/image_routes.py:47-70 | a user id < 1 gives 400 (exactly then); otherwise the reply echoes the id, its images are the user's rows in table order, each of them listed, and count = their number |
| UserRoutes.GetOrCreateNameEndpoint | backend/routes/user_routes.py:13-35 | a blank name gives 500 "Failed to get or create name: 400: Name cannot be empty" with the table unchanged; otherwise the service gets the trimmed name and its answer is echoed with status "success" |
| ProfitRoutes.ProfitDataKeepsMetrics | backend/routes/user_profit_routes.py:34-47 | the ten metrics handed to the service are the request's, unchanged |
| ProfitRoutes.SaveProfitEndpoint | backend/routes/user_profit_routes.py:24-56 | a scenario outside {1, 2} surfaces as 500 "Failed to save profit data: 400: Scenario must be 1 or 2"; a service failure gives 500; otherwise success and profit_id are echoed |
| ProfitRoutes.GetProfitEndpoint | backend/routes/user_profit_routes.py:59-79 | 404 iff a scenario is given and nothing is stored; a service failure gives 500; otherwise the result is returned as it came |
| FileUpload.ValidateFile | frontend/src/components/FileUpload.tsx:17-32 | accepted iff one of five MIME types and size <= 10 MiB; the type alert comes first, then the size alert |
| FileUpload.SizeLimitIsInclusive | frontend/src/components/FileUpload.tsx:19-29 | exactly 10 MiB is accepted, and one byte more is not |
| FileUpload.AcceptedFiles | frontend/src/components/FileUpload.tsx:61-71 | the files whose upload is attempted match the new entries one to one, and each is valid |
| FileUpload.AcceptedFilesExact | frontend/src/components/FileUpload.tsx:61-71 | exactly the valid chosen files are kept |
| FileUpload.WithStatus | frontend/src/components/FileUpload.tsx:77-93 | entries keep their order, id, file and preview; the entries with that id take the new status and all others keep theirs |
| FileUpload.LastStatusWins | frontend/src/components/FileUpload.tsx:77-93 | after the second update to an id, only the second status remains |
| FileUpload.SettleOutcome | frontend/src/components/FileUpload.tsx:76-94 | with distinct ids, each uploaded file's entry ends with its own outcome, and other entries are untouched |
| FileUpload.UploadList.constructor | frontend/src/components/FileUpload.tsx:12 | the list starts empty |
| FileUpload.UploadList.HandleFiles | frontend/src/components/FileUpload.tsx:58-95 | the valid files are appended as pending entries in the order chosen; then each is settled by its upload's answer |
| FileUpload.BatchKeepsEarlier | frontend/src/components/FileUpload.tsx:73-94 | entries already listed, whose ids no chosen file reuses, come through a batch unchanged and keep their places ahead of the new ones |
| FileUpload.BatchSettlesNew | frontend/src/components/FileUpload.tsx:61-94 | after a batch, the entry at each new position is the matching valid file, in the order chosen, with the status its upload's answer gives |
| FileUpload.HandleFilesOutcome | frontend/src/components/FileUpload.tsx:58-95 | with fresh distinct ids, the earlier entries stay as they were, and each valid file ends as one entry, in order, marked success or error by its upload's answer |
| FileUpload.UploadList.RemoveFile | frontend/src/components/FileUpload.tsx:125-133 | the entries with that id are removed |
| FileUpload.WithoutExact | frontend/src/components/FileUpload.tsx:131 | exactly the entries with another id remain |
| FileUpload.WithoutConcat | frontend/src/components/FileUpload.tsx:131 | removal works piece by piece, so the remaining entries keep their order |
| Text.Strip | backend/routes/user_routes.py:22-25 | the result has whitespace at neither end, and only whitespace was removed around it |
| Text.StripIdempotent | backend/routes/image_routes.py:32 | stripping twice is stripping once |
| Text.BlankIffAllSpace | backend/routes/user_routes.py:22 | a name is refused iff it is empty or all whitespace |
| Text.Extension | backend/server.py:68 | the extension is non-empty iff some dot has a non-dot character before it; then it is the suffix from the last dot on, with no other dot |
| Text.NatToStringRoundTrip | backend/server.py:52 | the status code in the text of an `HTTPException` reads back as the code |
| Text.HttpExceptionTextDetermines | backend/server.py:52 | two exception texts are equal only when both the status and the detail are |

## Left out

- Detectron2 and OpenCV (inference, `findContours`, `contourArea`, `arcLength`, `convexHull`, `boundingRect`, `minAreaRect`, drawing, colours, `imwrite`, resizing) are foreign calls. Their results are inputs: a mask's measurements, or its having no contour or touching the border.
- The weight formula `10**(1.465*log10(a)+0.8749)*0.03527396` is transcendental floating point. It is a parameter `powerLaw`; the model states that the weight is null unless area_in2 * 1.5 > 0, and otherwise `powerLaw` applied to area_in2 * 1.5.
- Floating point in general: all measures and prices are exact reals. NaN is modelled as `None`.
- ContourFeatures.DeriveMeasures: does not model the "partial" CSV path taken when the area, length or width column is missing, because the frames built by the mask loop always have those columns.
- pandas `concat`/`to_csv`, `os.walk`, image reading, `sleep`, CUDA checks and every `print` are I/O. An unreadable image is an input flag. The sort by file name is taken as already done.
- The network: every `fetch` in `UserAnalysis.ts` and the `getUserAnalyses` call inside `calculatePricingSummary` are replaced by the reply they would produce.
- backend/services/user_profit_service.py is not part of this model. It forwards to database functions that are not part of the shown backend either. The profit routes take its answer as an input, and no uniqueness of a (user, scenario) record is claimed.
- backend/routes/user_analysis_routes.py is not part of this model: it is tuple-to-dict glue over the analysis service.
- `get_tables` and `get_table_schema` in backend/routes/admin_routes.py are not part of this model; they read SQLite's catalogue.
- React rendering, drag and drop, `URL.createObjectURL`/`revokeObjectURL` and the random `generateId` are left out. Each chosen file carries its id, preview and upload answer.
- FileUpload.UploadList.HandleFiles: runs the uploads one after another, with no interleaving with a second batch or with `removeFile`: the asynchronous scheduling of React state updates is not modelled.
- SQLite: tables are assumed to exist (`init_db` has run). Connection, commit and WAL handling, locking and concurrency are left out. A `SELECT` without `ORDER BY` is taken to return rows in rowid order.
- SQLite failures inside the services (a disk or constraint error becoming a 500) are not modelled, except in the admin console and the profit service, where the failure is an input.
- Server file handling: file names are taken to contain no `/`, so `os.path.join` only prefixes the directory. The guessed MIME type and the CSV reader's parsed rows are inputs. An OS error while listing the output directory (a 500) is not modelled.
- Text.Upper, Text.Lower: map ASCII letters only; Python's full Unicode case mapping is not modelled.
- Pydantic's 422 validation of request bodies happens before any handler runs and is not modelled; a missing `user_id` is therefore out of scope.
- The text of a caught `HTTPException` is taken to be "status: detail", as Starlette formats it.
- UserAnalysis.ErrorMessage: takes the reply's `detail` to be a string or absent. A `detail` that is not a string, such as the list FastAPI sends with a 422, becomes the text "[object Object]" in the front end's `Error`; that case is not modelled.
- AdminRoutes.ExecuteQuery: a BLOB value is returned as its bytes; how FastAPI's JSON encoder then renders (or fails on) those bytes is not modelled.
