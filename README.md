# BirdTag platform, modelled in Dafny

BirdTag stores bird pictures, videos and recordings in S3, tags them with the species a
detector finds, and lets signed-in users search the tags. This project models the parts
of the platform that decide what is stored, what is found and what is sent:

- the search page of the web front end (`BirdSearchApp.jsx`): how each search form turns
  its text into a request, how the tag/count pair editor behaves, how the results are
  grouped into pictures, videos and audio, and which links and thumbnails are shown;
- the sign-up and alert-settings forms (`SignupForm.jsx`, `UserAccount.jsx`);
- the upload-URL Lambda, which names the object a browser upload creates under
  `raw_uploads/` and returns a presigned POST form;
- the web Lambda: searches by tags and counts, by species, by thumbnail URL and by file,
  tag editing and deletion;
- the object-detection Lambda and its image/video tagger: the newest `.pt` weights, the
  confident boxes counted per species, track locking in videos and the largest number
  of each species seen in one frame, the annotated copy's name and the stored item;
- the audio Lambda and the BirdNET tagger: framing of the signal, per-class best scores
  against the threshold, and the stored item;
- the DynamoDB-stream Lambdas: subscribing each user's e-mail address to the one
  alert topic, with a filter policy listing the tags the user follows, and publishing a
  notification per tag of a new file;
- the alert-preferences Lambda behind `POST /sns-alert`, an HTTP handler that adds the
  tags a user wants alerts for to the ones stored for that address.

The detector, tracker and classifier, S3, DynamoDB, SNS, Cognito, the clock and random
numbers are not modelled as code: what they return is an input of the model (a list of
boxes, the tracked detections of each frame, the score matrix, a listing of objects, an
upload time). Python and JavaScript behaviour the source relies on is written out:
`os.path.splitext` versus `rsplit`, `max` keeping the first of equal maxima, dictionary
insertion order, Python `strip` versus JavaScript `trim`, `urlparse`, `Number` and `int`.

Modules: `Wrappers`, `Text`, `Json` (shared values), `Paths`, `UrlParse`, `ModelStore`,
`Counters` (Python helpers), `SearchApp`, `ResultView`, `SignUp`, `UserAccount`
(front end), `Presign`, `WebLambda`, `DynamoStream`, `Subscriber`, `Publisher`,
`TagsUpdater`, `Tagger`, `DetectionHandler`, `AudioTagger`, `AudioHandler` (Lambdas).

## Model

| member | source | states |
|---|---|---|
| SearchApp.JsNumberOfIntToString | frontend/src/BirdSearchApp.jsx:263 | `Number` reads back the decimal text of any integer, so an accepted count is sent as the integer it denotes |
| SearchApp.BuildPostSearch | frontend/src/BirdSearchApp.jsx:37-43 | text that is not JSON or parses to a falsy value raises "Invalid JSON" and sends nothing; any other value is POSTed to `/search` unchanged (also lines 79-97) |
| SearchApp.BuildTagsOnly | frontend/src/BirdSearchApp.jsx:121-140 | a request is sent exactly when the tag text is not blank as a whole and a token is present; blank text alerts first, a missing token second; the trimmed text is the `tag` parameter |
| SearchApp.TagsOnlySendsCommaList | frontend/src/BirdSearchApp.jsx:122-135 | `" , "` is not rejected: it is sent as `tag=,` |
| SearchApp.FilterPairs | frontend/src/BirdSearchApp.jsx:157-159 | every kept row has a non-blank tag and a positive count, and no row is invented |
| SearchApp.FilterPairsMembers | frontend/src/BirdSearchApp.jsx:157-159 | a row is kept exactly when it is in the editor with a non-blank tag and a count above zero |
| SearchApp.FilterPairsConcat | frontend/src/BirdSearchApp.jsx:157-159 | filtering keeps input order: it distributes over concatenation |
| SearchApp.TagCountParamsLength | frontend/src/BirdSearchApp.jsx:165-169 | two parameters are appended per kept row |
| SearchApp.TagCountParamsAt | frontend/src/BirdSearchApp.jsx:166-169 | positions 2i and 2i+1 hold `tag{i+1}` with the trimmed tag and `count{i+1}` with the count's text |
| SearchApp.AppendTagCountParams | frontend/src/BirdSearchApp.jsx:165-169 | the `forEach` appending `tag{i+1}` and `count{i+1}` per kept row builds exactly the numbered parameter list |
| SearchApp.BuildTagCounts | frontend/src/BirdSearchApp.jsx:156-174 | no request when no row survives the filter; otherwise a GET to `/search` whose parameters are exactly the numbered pairs of the kept rows, in order |
| SearchApp.SentCountsArePositive | frontend/src/BirdSearchApp.jsx:158-168 | every count sent is the decimal text of a positive integer, never `NaN` |
| SearchApp.BuildThumbnailSearch | frontend/src/BirdSearchApp.jsx:195-205 | only the empty string is refused; any other URL is sent untrimmed in a GET to `/search` whose one parameter is `thumbnailURL`, with no body |
| SearchApp.TrimAll | frontend/src/BirdSearchApp.jsx:234-249 | element k of the result is element k of the input, trimmed |
| SearchApp.DropEmpty | frontend/src/BirdSearchApp.jsx:235-250 | the result holds exactly the non-empty pieces of the input |
| SearchApp.NonBlankLines | frontend/src/BirdSearchApp.jsx:232-250 | every line kept is a non-empty trimmed line of the text |
| SearchApp.ParseTagLine | frontend/src/BirdSearchApp.jsx:252-255 | a line is refused for a missing comma exactly when it has no comma |
| SearchApp.SplitTagLine | frontend/src/BirdSearchApp.jsx:256 | destructuring `line.split(",")` gives the text before the first comma and the text up to the second |
| SearchApp.ParseTagLineAccepts | frontend/src/BirdSearchApp.jsx:256-263 | a line with a comma is accepted exactly when its tag is not blank and its count is a number, and then becomes `trim(tag),Number(count)`; otherwise it is refused as a bad tag or count |
| SearchApp.ParseTagLinesSuccess | frontend/src/BirdSearchApp.jsx:247-264 | an accepted batch is the lines converted one by one, in order |
| SearchApp.ParseTagLinesFailure | frontend/src/BirdSearchApp.jsx:251-262 | a refused batch names its first bad line and that line's fault |
| SearchApp.ParseTagLinesAllOrNothing | frontend/src/BirdSearchApp.jsx:251-262 | one bad line refuses the whole batch |
| SearchApp.BuildModifyTags | frontend/src/BirdSearchApp.jsx:231-283 | no URL line alerts first, an operation other than "0"/"1" second, a bad tag line third; a request is sent exactly when all three pass, carrying the URL lines, the numeric operation and the converted tag lines |
| SearchApp.OneLine | frontend/src/BirdSearchApp.jsx:232-235 | a text without line breaks or surrounding blanks is a single line |
| SearchApp.ModifyRejectsLineWithoutComma | frontend/src/BirdSearchApp.jsx:252-254 | a tag line without a comma refuses the request and the alert quotes that line |
| SearchApp.EmptyCountIsZero | frontend/src/BirdSearchApp.jsx:257-263 | `crow,` is accepted and sent as `crow,0`, since `Number("")` is 0 |
| SearchApp.BuildDeleteFiles | frontend/src/BirdSearchApp.jsx:306-325 | blank input is refused; otherwise the body is `{urls: [trimmed input]}` |
| SearchApp.BuildUploadSearch | frontend/src/BirdSearchApp.jsx:346-366 | no file is refused; otherwise the file is posted as form data to `/upload-search` |
| SearchApp.Normalize | frontend/src/BirdSearchApp.jsx:105-112 | POST search shows `links` when non-empty, else `[originalURL]` when truthy, else `[]`; the GET modes show `links || []`; thumbnail search shows `[originalURL]` or `[]`; modify shows `updated` when non-empty, else `[]`, where non-empty is `length > 0`, read from an object's own `length` property too; delete alerts the message or "Deletion completed" (also lines 148, 187, 220-222, 291-296, 335-337, 375-377) |
| SearchApp.HandleReply | frontend/src/BirdSearchApp.jsx:98-117 | a status outside 200-299 alerts `HTTP <status>: <text>` behind the mode's prefix; an unreadable body alerts the parse error; a `null` body alerts a `TypeError`; anything else is normalised |
| SearchApp.ObjectWithLengthIsKept | frontend/src/BirdSearchApp.jsx:106 | a `links` (POST search) or `updated` (modify) object with a positive numeric `length` property becomes the result (also line 292) |
| SearchApp.SearchResultIsArray | frontend/src/BirdSearchApp.jsx:105-112 | whenever the reply's lists are arrays, every mode but delete leaves an array as the result (also lines 148, 187, 220-222, 291-296) |
| SearchApp.StringsWhere | frontend/src/BirdSearchApp.jsx:64-74 | the selected links are no more than the input entries |
| SearchApp.CategorizeLinks | frontend/src/BirdSearchApp.jsx:54-77 | a non-array gives three empty lists; an array is sorted entry by entry into the audio, image and other lists |
| SearchApp.CategorizedPartition | frontend/src/BirdSearchApp.jsx:64-74 | every string link lands in exactly one of the three lists, and only string links appear |
| SearchApp.StringsWhereMembers | frontend/src/BirdSearchApp.jsx:64-65 | a list holds a text exactly when it is a string entry of the input satisfying the list's test |
| SearchApp.AudioBeforeImage | frontend/src/BirdSearchApp.jsx:67-70 | the audio test comes first: `a.mp3?b.jpg` is audio, not image |
| SearchApp.UpdateTagCountPair | frontend/src/BirdSearchApp.jsx:385-393 | only row `idx` changes: its tag becomes the value, or its count becomes `Number(value)`; the length is kept |
| SearchApp.RemoveTagCountPair | frontend/src/BirdSearchApp.jsx:395-397 | row `idx` is dropped and the others keep their order; an index out of range changes nothing |
| SearchApp.AddTagCountPair | frontend/src/BirdSearchApp.jsx:399-401 | appends the row `{tag: "", count: 1}` and keeps the rest |
| SearchApp.RemoveUndoesAdd | frontend/src/BirdSearchApp.jsx:395-401 | removing the row just added restores the editor |
| SearchApp.DefaultPairIsDropped | frontend/src/BirdSearchApp.jsx:157-159 | a freshly added row is never sent (also lines 399-401) |
| ResultView.FileName | frontend/src/BirdSearchApp.jsx:824 | the file name of a URL contains neither `/` nor `?` |
| ResultView.SplitLastPiece | frontend/src/BirdSearchApp.jsx:824 | the last piece of a split is the text after the last separator |
| ResultView.FileNameOf | frontend/src/BirdSearchApp.jsx:824 | the file name of `<path>/<name><?query>` is `name` |
| ResultView.BeforeSeparator | frontend/src/BirdSearchApp.jsx:825 | the result is the longest prefix without `-` or `_`: it is a prefix, holds no separator, and is followed by one unless it is the whole text |
| ResultView.SubjectOf | frontend/src/BirdSearchApp.jsx:824-825 | the subject is never empty: the text before the first separator of the file name, or `Unknown` |
| ResultView.Place | frontend/src/BirdSearchApp.jsx:835-849 | a URL is appended to the list of its own kind and every other list is unchanged; a `.mp4` whose name contains `thumbnail` goes nowhere |
| ResultView.FindGroup | frontend/src/BirdSearchApp.jsx:827 | finds the first group with the subject, or reports that none has it |
| ResultView.LookupGroup | frontend/src/BirdSearchApp.jsx:827-833 | the position of the subject's group, or the end of the list when the group must be created |
| ResultView.GroupResults | frontend/src/BirdSearchApp.jsx:821-850 | the loop throws exactly when some URL that is not a hidden video has a subject named like an inherited `Object.prototype` member (`grouped[name]` is then a truthy function without lists); otherwise it builds exactly the reference grouping of the other URLs |
| ResultView.Visible | frontend/src/BirdSearchApp.jsx:827-833 | the URLs whose subject is not an inherited name, in order |
| ResultView.VisibleStep | frontend/src/BirdSearchApp.jsx:823-849 | one more URL joins the visible ones unless its subject is inherited, and extends their grouping by one step |
| ResultView.CrashesStep | frontend/src/BirdSearchApp.jsx:823-849 | one more URL makes the page throw exactly when it is pushed under an inherited name |
| ResultView.Subjects | frontend/src/BirdSearchApp.jsx:852-859 | the subjects of the groups, position by position |
| ResultView.DistinctSubjectsProps | frontend/src/BirdSearchApp.jsx:825-833 | the subjects listed are pairwise distinct, every URL's subject is listed, and every listed subject is some URL's |
| ResultView.GroupedSubjects | frontend/src/BirdSearchApp.jsx:821-833 | one group per subject, in order of first appearance (also line 852) |
| ResultView.UrlsOfOther | frontend/src/BirdSearchApp.jsx:835-849 | a URL of another subject or kind does not change a list |
| ResultView.UrlsOfSame | frontend/src/BirdSearchApp.jsx:835-849 | a URL is appended to the list of its own subject and kind |
| ResultView.UrlsOfAbsent | frontend/src/BirdSearchApp.jsx:827-833 | a subject no URL has gets empty lists |
| ResultView.GroupedLists | frontend/src/BirdSearchApp.jsx:821-850 | each list of each group is exactly the URLs of that subject and kind, in input order |
| ResultView.GroupedListsNewSubject | frontend/src/BirdSearchApp.jsx:827-849 | the invariant of GroupedLists survives a URL that opens a new group |
| ResultView.GroupedListsKnownSubject | frontend/src/BirdSearchApp.jsx:827-849 | the invariant of GroupedLists survives a URL added to an existing group |
| ResultView.UngroupedSubjectAbsent | frontend/src/BirdSearchApp.jsx:823-827 | a subject without a group is the subject of none of the URLs |
| ResultView.UrlsOfMembers | frontend/src/BirdSearchApp.jsx:835-849 | a URL is in a list exactly when it is in the result with that subject and kind |
| ResultView.HiddenVideoNotShown | frontend/src/BirdSearchApp.jsx:837-842 | a `.mp4` whose lower-cased name contains `thumbnail` is in no list of any group |
| ResultView.UrlsOfVisible | frontend/src/BirdSearchApp.jsx:827-849 | leaving out the URLs of inherited subjects leaves the lists of every other subject unchanged |
| ResultView.ShownLists | frontend/src/BirdSearchApp.jsx:821-850 | when the page does not throw, no group has an inherited name and each list of each group is exactly the URLs of the result with that subject and kind, in order |
| ResultView.OriginalUrl | frontend/src/BirdSearchApp.jsx:413-418 | set exactly when the result has one URL and it carries no marker, and then it is that URL |
| ResultView.OriginalUrlExcludesMarkers | frontend/src/BirdSearchApp.jsx:408-418 | the page-level original URL and the marker flag never hold together for a one-element result |
| ResultView.FindRaw | frontend/src/BirdSearchApp.jsx:892-897 | the first image of the group that contains `raw_uploads` and has the same file name, or none exactly when no image qualifies |
| ResultView.MarkedCards | frontend/src/BirdSearchApp.jsx:875-881 | every card shown carries a marker and comes from the group's images |
| ResultView.PlainCards | frontend/src/BirdSearchApp.jsx:947-986 | without markers every image is shown, in order, linking to itself, captioned "Original Image" |
| ResultView.OriginalCardNeverShown | frontend/src/BirdSearchApp.jsx:855 | the lone-original card never appears, because the destructured `originalURL` is always undefined; a group without images shows no image row (also lines 988-1027) |
| ResultView.MarkedCardsShowMarked | frontend/src/BirdSearchApp.jsx:873-945 | with the flag set, the cards are exactly the group's marked images, in order, captioned "Thumbnail" or "Annotated" |
| ResultView.MarkedCardLink | frontend/src/BirdSearchApp.jsx:886-911 | a thumbnail links to the first raw upload with the same file name, or to itself when there is none; other cards link to themselves |
| ResultView.VideoDownloadLabel | frontend/src/BirdSearchApp.jsx:1043-1050 | a download link is offered exactly when the lower-cased URL contains `annotated` or `raw_uploads` (also lines 1098-1102) |
| ResultView.VideoRow | frontend/src/BirdSearchApp.jsx:1041-1107 | one entry per video, in order, with its download link |
| ResultView.ViewAll | frontend/src/BirdSearchApp.jsx:852-1183 | one view per group, in order |
| ResultView.Texts | frontend/src/BirdSearchApp.jsx:823-824 | the texts of a list of JSON strings, position by position |
| ResultView.ResultAreaOf | frontend/src/BirdSearchApp.jsx:813-850 | a falsy result shows nothing; "No results found." exactly for an empty list; the page throws exactly for a truthy non-list, a list with a non-string, or a pushed inherited subject; otherwise the groups shown are the views of the grouping of the visible URLs, with the page-wide marker flag |
| ResultView.ThumbnailNeedsIdenticalName | frontend/src/BirdSearchApp.jsx:892-897 | a thumbnail whose file name matches no image links to itself |
| SignUp.Utf16Length | frontend/src/SignupForm.jsx:28 | `pwd.length` counts UTF-16 code units: between one and two per character |
| SignUp.CheckPassword | frontend/src/SignupForm.jsx:26-34 | each check holds exactly when the password has 8 or more code units, an ASCII capital, an ASCII small letter, an ASCII digit, or a character outside `[A-Za-z0-9]` |
| SignUp.Utf16LengthConcat | frontend/src/SignupForm.jsx:28 | the length of a concatenation is the sum of the lengths |
| SignUp.ValidPasswordExtends | frontend/src/SignupForm.jsx:26-37 | appending text to a valid password keeps it valid |
| SignUp.AlphanumericNeverValid | frontend/src/SignupForm.jsx:32-37 | a password made only of ASCII letters and digits is never valid |
| SignUp.ErrorText | frontend/src/SignupForm.jsx:69-76 | `UsernameExistsException` shows the fixed "already exists" text; any other error its message, or its JSON text when the message is empty |
| SignUp.SignUpForm.constructor | frontend/src/SignupForm.jsx:16-23 | a form starts with the given fields, no error, no status and no submission in progress |
| SignUp.SignUpForm.HandleSignUp | frontend/src/SignupForm.jsx:40-66 | signs up exactly when the entries match and the password is valid; a mismatch reports "Passwords do not match." even for an invalid password, an invalid password its own error; the fields are unchanged |
| SignUp.SignUpForm.SignUpDone | frontend/src/SignupForm.jsx:67-81 | the submission ends; an error sets the error text, success sets the success status and leads to confirmation for the e-mail address |
| SignUp.EnabledSubmitSignsUp | frontend/src/SignupForm.jsx:241-243 | when the button is enabled, pressing it signs up without error |
| UserAccount.ValuesArray | frontend/src/UserAccount.jsx:70-73 | the values are exactly the non-empty trimmed comma-separated pieces of the input; none is empty, holds a comma, or has surrounding blanks |
| UserAccount.TrimmedPieces | frontend/src/UserAccount.jsx:72 | trimming comma-free pieces leaves them comma-free and already trimmed, and every piece's trimmed form is kept |
| UserAccount.TrimKeepsOut | frontend/src/UserAccount.jsx:72 | trimming adds no character |
| UserAccount.TrimTwice | frontend/src/UserAccount.jsx:72 | trimming is idempotent |
| UserAccount.Strings | frontend/src/UserAccount.jsx:91 | the JSON strings of the values, position by position |
| UserAccount.SubmitBody | frontend/src/UserAccount.jsx:89-92 | the body is `{email, values: valuesArray}`, with no `email` when the user has none |
| UserAccount.AlertForm.constructor | frontend/src/UserAccount.jsx:64-68 | a form starts empty with no message |
| UserAccount.AlertForm.HandleSubmit | frontend/src/UserAccount.jsx:64-93 | a request is sent exactly when some value was typed, with the body above; an empty list sets "Please enter at least one value." and sends nothing |
| UserAccount.AlertForm.SubmitDone | frontend/src/UserAccount.jsx:95-109 | success clears the input and shows `data.tags \|\| []`, leaving the error as it was; a failure shows the server's message, the fallback text or the error message and changes nothing else; a `null` reply body shows the browser's type error, after the success text when the reply was good, and keeps the input; the submission always ends |
| UserAccount.SubmittedValuesAreStored | frontend/src/UserAccount.jsx:70-92 | with user_tags_updater_lamda/user_tags_updater.py:30-48: a request the page sends passes the Lambda's checks and the user then follows every value typed; the reply lists the tags exactly when no number was stored for the address before, and is otherwise the 500 for the `Decimal` read back |
| UserAccount.PageRequestsAreAnswered | frontend/src/UserAccount.jsx:70-92 | with user_tags_updater_lamda/user_tags_updater.py:30-54: while every stored tag is a string, a request the page sends is answered with the updated tags |
| UserAccount.PageStoresOnlyStrings | frontend/src/UserAccount.jsx:70-92 | with user_tags_updater_lamda/user_tags_updater.py:36-47: the page's requests keep every stored tag a string |
| Presign.FileExtensionSplits | pre_sign_url_lambda/pre_sign_lambda.mjs:8-17 | name and extension put back together are the file name; the extension is empty exactly when the name has no dot, and otherwise is a dot followed by text without dots |
| Presign.FileExtensionIsLastDot | pre_sign_url_lambda/pre_sign_lambda.mjs:14-16 | for a name with a dot, the extension is the text from its last dot on |
| Presign.RandomSuffix | pre_sign_url_lambda/pre_sign_lambda.mjs:34-36 | the random number in the key is below 1000000 |
| Presign.Handler | pre_sign_url_lambda/pre_sign_lambda.mjs:19-67 | a missing or empty filename is a 400 "Filename is required" before any presigning; a failed presign is a 500; otherwise the form is for the upload bucket and the key, expires after 300 s, limits the size to 0..104857600 and posts `key` equal to the key |
| Presign.UploadKeyKeepsExtension | pre_sign_url_lambda/pre_sign_lambda.mjs:32-36 | the key starts with `raw_uploads/` and ends with the file's extension; a name without a dot gives a key without one |
| Presign.DigitsDashSplit | pre_sign_url_lambda/pre_sign_lambda.mjs:34 | a digit string followed by `-` is recovered uniquely from the text |
| Presign.UploadKeysDiffer | pre_sign_url_lambda/pre_sign_lambda.mjs:34-36 | two uploads of the same file share a key only with the same millisecond and the same random number |
| DynamoStream.Or | SNS/subscribe_users_to_sns.py:18-21 | Python's `a or b`: truthy exactly when either is; `a` when `a` is truthy, otherwise `b` |
| DynamoStream.StringOr | SNS/bird_notification_publisher.py:16-20 | the text of a string attribute, otherwise `''` |
| DynamoStream.Names | SNS/bird_notification_publisher.py:26 | the names of a map's entries, in order |
| Subscriber.GetValue | SNS/subscribe_users_to_sns.py:47-59 | the S, N or BOOL payload of the attribute, and `None` exactly when the key is missing or has another type |
| Subscriber.GetList | SNS/subscribe_users_to_sns.py:61-67 | the lower-cased S of each element of an L attribute; `[]` when the attribute is absent or malformed |
| Subscriber.FilterPolicy | SNS/subscribe_users_to_sns.py:69-72 | one policy tag per followed tag, each the lower-cased tag at the same position |
| Subscriber.PolicyOfStoredTags | SNS/subscribe_users_to_sns.py:64-71 | tags read with `get_list` are already lower-case, so the policy is the list itself |
| Subscriber.SubscribeAndSave | SNS/subscribe_users_to_sns.py:25-37 | subscribes with the filter policy of the tags, then saves the ARN exactly when one is returned |
| Subscriber.RecordActions | SNS/subscribe_users_to_sns.py:13-45 | an INSERT subscribes the e-mail address (new image first, else old) with the new image's tags and then saves the ARN SNS answers with; a MODIFY with an unchanged tag set does nothing, and one with a changed set unsubscribes the ARN when one is known (new image first, else old) and then subscribes and saves; a REMOVE with a known ARN unsubscribes it and removes the ARN stored for the address, and without one does nothing; an event other than INSERT, MODIFY or REMOVE does nothing |
| Subscriber.HandleRecords | SNS/subscribe_users_to_sns.py:12-45 | the actions are those of the records, in record order |
| Subscriber.ModifyActsIffTagsChange | SNS/subscribe_users_to_sns.py:29-39 | a MODIFY does nothing exactly when the new and old tag sets are equal, ignoring order and repetition; otherwise it ends by subscribing with the new tags |
| Subscriber.ModifyUnsubscribesFirst | SNS/subscribe_users_to_sns.py:31-35 | a MODIFY that changes the tags, with an ARN known, is exactly: unsubscribe that ARN, subscribe the address with the new tags, then save the answered ARN when there is one |
| Subscriber.RemoveOnlyUnsubscribes | SNS/subscribe_users_to_sns.py:41-45 | a REMOVE never subscribes or saves, acts exactly when an ARN is known, and then unsubscribes that ARN and removes the ARN stored for the address |
| Subscriber.FollowedTagIsDelivered | SNS/subscribe_users_to_sns.py:64-71 | with SNS/bird_notification_publisher.py:51,74-77: a followed tag matches a sighting of the same tag in any letter case |
| Publisher.Publish | SNS/bird_notification_publisher.py:50-77 | the `tag` attribute is the tag lower-cased and the subject the fixed one; the message is the heading (greeting, `Species`, `Media ID`, `Time`), then the annotated-image line, then the raw-image line, then the thank-you footer |
| Publisher.LinkLine | SNS/bird_notification_publisher.py:61-64 | a link line is empty exactly when the link is missing or empty, and otherwise is a line break, `View `, the caption, `: ` and the link |
| Publisher.PublishOpensAndCloses | SNS/bird_notification_publisher.py:53-66 | every message starts with the greeting and `Species: <tag>` in the tag's original case, and ends with the thank-you footer |
| Publisher.LinkLinesInOrder | SNS/bird_notification_publisher.py:53-66 | the message is read back as heading, annotated line, raw line and footer in that order; a missing or empty link leaves its line out entirely |
| Publisher.LinkFor | SNS/bird_notification_publisher.py:32-40 | a link is presigned only for a non-empty URL whose bucket and key are both non-empty, and for exactly that bucket and key |
| Publisher.PublishRecord | SNS/bird_notification_publisher.py:11-43 | the loop over the tag names publishes the reference list of messages for the record |
| Publisher.HandleRecords | SNS/bird_notification_publisher.py:9-48 | the publications are those of the records, in record order |
| Publisher.OnePublicationPerTag | SNS/bird_notification_publisher.py:11-12 | a record other than INSERT publishes nothing; an INSERT publishes exactly one message per tag of its map, in map order, each with that tag lower-cased (also lines 22-26, 42-43) |
| Publisher.ContainsSecond | SNS/bird_notification_publisher.py:61-66 | a piece in the middle of a message is contained in it |
| Publisher.AnnotatedLinkLine | SNS/bird_notification_publisher.py:61-62 | a non-empty annotated link adds a non-empty `View Annotated Image` line, and the sent message contains it whatever the raw link is |
| TagsUpdater.Respond | user_tags_updater_lamda/user_tags_updater.py:64-75 | the reply has the given status and a body holding `message` and every field of `data`, a field of `data` overriding the message |
| TagsUpdater.FirstUnhashable | user_tags_updater_lamda/user_tags_updater.py:40 | the value `set(new_tags)` fails on: a list or object, with only hashable values before it |
| TagsUpdater.Merge | user_tags_updater_lamda/user_tags_updater.py:40 | the stored tags are the set union: every existing and every new tag, and nothing else |
| TagsUpdater.Handle | user_tags_updater_lamda/user_tags_updater.py:8-61 | OPTIONS is the preflight answer; any route but POST `/sns-alert` is a 404; an unparsable body is the 400 "Invalid JSON in request body.", a `null` body the 500 from `json.loads`, an absent body the e-mail 400, and a parsed body goes on to the checks; the preferences change only for a body that passes every check, and the reply is then the update or the `Decimal` 500 |
| TagsUpdater.HandleBody | user_tags_updater_lamda/user_tags_updater.py:26-58 | a non-object body is the 500 naming its Python type; then the e-mail 400, the values 400, the DynamoDB 500 and the unhashable-type 500 naming the first list or object, in that order; when every check passes the merged tags are stored, and the reply lists them unless a number was stored for the address before, in which case it is the 500 "Object of type Decimal is not JSON serializable" (also lines 56-57, 73); every refusal leaves the preferences unchanged |
| TagsUpdater.HandleStores | user_tags_updater_lamda/user_tags_updater.py:26-54 | a valid POST with a non-empty address and values stores the union of the old tags and the values: nothing old is lost, every value is added, nothing else appears; the reply lists them exactly when no number was stored before, otherwise it is the `Decimal` 500 |
| TagsUpdater.HandleIdempotent | user_tags_updater_lamda/user_tags_updater.py:36-48 | sending the same request twice stores the same tags as sending it once |
| TagsUpdater.HandleOnlyAdds | user_tags_updater_lamda/user_tags_updater.py:30-48 | a user's followed tags only grow, and only the address the request names can change |
| WebLambda.TagDict | web-lambda/lambda_function.py:341-343 | the tags of an item are used exactly when they are absent (an empty dictionary) or a dictionary (also lines 378-380) |
| WebLambda.PresignedOrOriginal | web-lambda/lambda_function.py:70-80 | the result is the presigned link for the URL's bucket and key when there is a non-empty one, and the URL itself otherwise, in particular when the URL does not parse |
| WebLambda.PresignStoredUrl | web-lambda/lambda_function.py:52-77 | a stored `https://<bucket>.s3.<region>.amazonaws.com/<key>` URL is presigned for exactly that bucket and key |
| WebLambda.LoadBody | web-lambda/lambda_function.py:101 | a missing body reads as an empty object (also lines 153, 226, 266) |
| WebLambda.Strings | web-lambda/lambda_function.py:217 | the JSON strings of a list of texts, position by position |
| WebLambda.QueryTagKeyInjective | web-lambda/lambda_function.py:37 | distinct indexes give distinct `tag{i}` keys |
| WebLambda.TagKeysFromShrink | web-lambda/lambda_function.py:37-45 | each step of the scan leaves fewer `tag{j}` keys ahead, so the scan ends |
| WebLambda.ScannedPairs | web-lambda/lambda_function.py:37-45 | the scan visits `tag{i}`/`count{i}` for i = 1, 2, … and stops at the first i missing either |
| WebLambda.Setting | web-lambda/lambda_function.py:38-42 | a pair sets a count only for a non-empty stripped tag and an int count above 0 |
| WebLambda.ScannedCounts | web-lambda/lambda_function.py:35-46 | every tag in the query is non-empty with a positive count |
| WebLambda.ScannedCountsMembers | web-lambda/lambda_function.py:38-42 | a tag is in the query exactly when some visited pair sets it |
| WebLambda.ScannedCountsSetter | web-lambda/lambda_function.py:38-42 | every tag in the query was set by some visited pair with that stripped tag and a positive count |
| WebLambda.ScannedCountsKeeps | web-lambda/lambda_function.py:38-42 | a tag set by some visited pair is never dropped by later pairs |
| WebLambda.ScannedCountsLast | web-lambda/lambda_function.py:42 | a later pair for the same tag overwrites an earlier one |
| WebLambda.ScannedPairsUnfold | web-lambda/lambda_function.py:37-45 | one step of the scan |
| WebLambda.ScannedCountsSnoc | web-lambda/lambda_function.py:38-42 | one more pair updates the query as a dictionary insert |
| WebLambda.ScanPair | web-lambda/lambda_function.py:38-44 | one pass of the loop body, a failing `int` included, extends the query exactly as the reference does for one more pair |
| WebLambda.ParseTagCountQuery | web-lambda/lambda_function.py:34-46 | the while loop computes the reference query of the parameters |
| WebLambda.TagCountQueryMembers | web-lambda/lambda_function.py:34-46 | a tag is in the query exactly when some reached pair sets it; each such tag is non-empty with a positive count |
| WebLambda.TagCountQueryLastWins | web-lambda/lambda_function.py:42 | the count of a tag is the one from the last reached pair that sets it |
| WebLambda.PresentUrls | web-lambda/lambda_function.py:347-350 | an item contributes exactly its non-empty URL fields, thumbnail first and annotated last, at most three (also lines 383-386) |
| WebLambda.PresignAll | web-lambda/lambda_function.py:216 | every URL is presigned, in order |
| WebLambda.SumOverRemove | web-lambda/lambda_function.py:325-331 | the total over a set of tag names is one name's term plus the total over the rest, so it does not depend on iteration order |
| WebLambda.SumMatchingTags | web-lambda/lambda_function.py:325-331 | the loop sums the counts of exactly the tags whose lower-cased name contains the lower-cased query |
| WebLambda.SumOverNoMatch | web-lambda/lambda_function.py:328-330 | no matching name gives a total of 0 |
| WebLambda.SumOverAtLeast | web-lambda/lambda_function.py:328-330 | with non-negative counts, the total is at least the count of any matching name |
| WebLambda.SumOverNonNegative | web-lambda/lambda_function.py:328-330 | with non-negative counts, the total is non-negative |
| WebLambda.MatchingTotalBounds | web-lambda/lambda_function.py:325-331 | no match gives 0; with non-negative counts, each matching tag's count is a lower bound |
| WebLambda.CheckCounts | web-lambda/lambda_function.py:346 | the item matches exactly when every requested tag's matching total reaches its count |
| WebLambda.ScanByCounts | web-lambda/lambda_function.py:333-352 | the links are those of the matching dictionary-tagged items, in scan order, each presigned |
| WebLambda.ScanByTags | web-lambda/lambda_function.py:371-388 | the links are those of the items where some requested tag is a substring of some lower-cased tag name, in scan order |
| WebLambda.TagLinksFromMatches | web-lambda/lambda_function.py:376-386 | every link returned comes from an item whose tags match the request |
| WebLambda.CleanTags | web-lambda/lambda_function.py:362 | the requested tags are exactly the stripped, lower-cased, non-blank pieces, none empty |
| WebLambda.RequestedTags | web-lambda/lambda_function.py:360-366 | a string is split at commas and cleaned; a list is cleaned element by element; any other value is refused |
| WebLambda.CommasOnlyRequestNothing | web-lambda/lambda_function.py:362-369 | `" , "` gives no requested tag, so the answer is 400 |
| WebLambda.EntryFields | web-lambda/lambda_function.py:167-168 | an entry is split only when it has exactly two comma-separated fields |
| WebLambda.ParseTagEntries | web-lambda/lambda_function.py:165-175 | the loop computes the reference dictionary of valid entries |
| WebLambda.StripTwice | web-lambda/lambda_function.py:169 | stripping is idempotent |
| WebLambda.EntryPairsMembers | web-lambda/lambda_function.py:166-168 | the field pairs are exactly those of the two-field entries |
| WebLambda.ParsedTagsMembers | web-lambda/lambda_function.py:165-175 | a name is kept exactly when some two-field entry has it with an int count above 0; every kept name is non-empty with a positive count |
| WebLambda.AddTags | web-lambda/lambda_function.py:194-196 | operation 1 gives each mentioned tag its old count (0 when absent) plus the requested count, keeps every tag not mentioned unchanged, and has exactly the old and the mentioned tags |
| WebLambda.RemoveTags | web-lambda/lambda_function.py:197-204 | operation 0 never adds a tag and keeps tags not mentioned unchanged; a mentioned tag the item has survives, with its count minus the requested count, exactly when that difference is positive |
| WebLambda.ChangeTags | web-lambda/lambda_function.py:194-204 | the loops compute the reference add or remove of the parsed counts |
| WebLambda.RemoveUndoesAdd | web-lambda/lambda_function.py:194-204 | with positive stored counts, removing what was just added restores the tags |
| WebLambda.StrValues | web-lambda/lambda_function.py:158-162 | the texts of a list of JSON strings |
| WebLambda.ValidateModify | web-lambda/lambda_function.py:153-178 | a body that is not an object is the 500; otherwise the first failing check gives its own 400 and message (`url` list, `operation` 0 or 1, `tags` list, no valid tag); the request is accepted exactly when every check passes, and then carries the given URLs, tags and operation and the parsed entries |
| WebLambda.FindByThumbnail | web-lambda/lambda_function.py:182-189 | the first item whose thumbnail URL is the given one, or none exactly when no item has it (also lines 301-307) |
| WebLambda.ModifyOne | web-lambda/lambda_function.py:181-214 | the first item whose thumbnail is the URL gets its tags changed (a non-dictionary `tags` counting as empty), every other item is unchanged, and the URL is reported exactly when some item has it as thumbnail |
| WebLambda.ModifyAll | web-lambda/lambda_function.py:180-214 | the table keeps its size and every thumbnail; each item is changed once per occurrence in the batch of the thumbnail it is the first holder of, and otherwise left alone; the URLs reported are exactly those some item holds as thumbnail, in the order given |
| WebLambda.ModifyItem | web-lambda/lambda_function.py:189-204 | one change replaces only the item's tags, by the added or subtracted dictionary built from its current one (empty when not a dictionary) |
| WebLambda.FoundUrls | web-lambda/lambda_function.py:180-185 | the URLs of the batch that some item holds as thumbnail, in order |
| WebLambda.FindIgnoresTags | web-lambda/lambda_function.py:181-185 | the scan by thumbnail finds the same item in two tables that differ only outside thumbnails |
| WebLambda.DeleteTargets | web-lambda/lambda_function.py:102-107 | a chosen string becomes a one-element list, a chosen list is taken as it is, and anything else (absent, null, number, object) is the 400 |
| WebLambda.Chosen | web-lambda/lambda_function.py:102 | `urls` when present and truthy, otherwise `thumbnailURL` |
| WebLambda.DeleteTargetsWrapString | web-lambda/lambda_function.py:104-105 | a single string URL is wrapped into a list |
| WebLambda.ItemsWithUrl | web-lambda/lambda_function.py:116-121 | the items holding the URL in any of the three fields |
| WebLambda.ItemsWithoutUrl | web-lambda/lambda_function.py:122-133 | the items left after deleting those that hold the URL |
| WebLambda.DeleteAll | web-lambda/lambda_function.py:109-144 | the table left behind is exactly the items holding none of the non-blank requested URLs, in their original order (so no survivor holds a requested URL, and every item holding none survives) |
| WebLambda.WithoutUrlShorter | web-lambda/lambda_function.py:122-133 | deleting never grows the table |
| WebLambda.Kept | web-lambda/lambda_function.py:111-133 | the items holding none of the non-blank requested strings, in table order |
| WebLambda.DeleteAllObjects | web-lambda/lambda_function.py:122-144 | the stored files asked to be deleted are exactly the parseable URLs of the items that do not survive |
| WebLambda.KeptAfterFirst | web-lambda/lambda_function.py:109-133 | removing the holders of the first requested URL, then the rest, keeps the survivors of the whole list |
| WebLambda.CountsOf | web-lambda/lambda_function.py:318-322 | a POST body whose values are all ints is itself the tag-count query, any other POST body gives none |
| WebLambda.SearchRouteOf | web-lambda/lambda_function.py:274-394 | `id` first, then `thumbnailURL`, then a non-empty tag-count query, then `tag`, else no criteria |
| WebLambda.QueryValues | web-lambda/lambda_function.py:263 | a GET's parameters as string values |
| WebLambda.FindById | web-lambda/lambda_function.py:281-284 | the item with the key, or none exactly when no item has it |
| WebLambda.SearchById | web-lambda/lambda_function.py:274-293 | a non-string id is a 400, an unknown one (after stripping quotes) a 404, and a known one a 200 whose body holds the presigned thumbnail (null when the item has none) and the item's tags |
| WebLambda.SearchByThumbnail | web-lambda/lambda_function.py:296-315 | a missing or empty URL is a 400, an unknown thumbnail a 404; for a known thumbnail the first item holding it decides: a present original URL gives the 200 with its presigned link, a missing one the 404 "Original URL not found" |
| WebLambda.Handle | web-lambda/lambda_function.py:82-394 | OPTIONS gets the preflight answer; only `/delete-files` deletes objects; only a POST to `/delete-files` or `/modify-tags` changes the table |
| WebLambda.ModifyValidationFirst | web-lambda/lambda_function.py:158-178 | a refused modify request changes nothing and is answered 400 or 500 |
| WebLambda.SearchByIdFirst | web-lambda/lambda_function.py:274 | a GET with an `id` is a search by key whatever else it carries |
| WebLambda.CountsBeforeTags | web-lambda/lambda_function.py:318 | a GET whose pairs give a tag-count query is answered by the count scan even when it also has `tag` (also lines 333, 359) |
| WebLambda.IntBodyIsCountQuery | web-lambda/lambda_function.py:321-322 | a POST body of ints is used as the tag-count map |
| UrlParse.RemoveUnsafe | web-lambda/lambda_function.py:53 | `urlparse` drops tab, CR and LF, and leaves a URL without them unchanged |
| UrlParse.FindAny | web-lambda/lambda_function.py:53 | the position of the first stop character, or the length when there is none |
| UrlParse.SplitOnce | web-lambda/lambda_function.py:53 | the text before the first separator and the rest, which put back together are the input |
| UrlParse.BucketOf | web-lambda/lambda_function.py:54 | the bucket is the host up to its first dot, so it holds no dot |
| UrlParse.KeyOf | web-lambda/lambda_function.py:55 | the key is the path with its leading slashes removed |
| UrlParse.BucketAndKey | web-lambda/lambda_function.py:52-56 | fails exactly when the modelled `urlparse` raises (unbalanced brackets in the network location); otherwise a dot-free bucket and a key without a leading slash |
| UrlParse.NoneOfConcat | web-lambda/lambda_function.py:53 | a concatenation avoids a set of characters exactly when both parts do |
| UrlParse.NoneOfSubset | web-lambda/lambda_function.py:53 | avoiding a set means avoiding any subset of it |
| UrlParse.SanitizeClean | web-lambda/lambda_function.py:53 | a URL without leading blanks or unsafe characters is left as it is |
| UrlParse.SplitSchemeOf | web-lambda/lambda_function.py:53 | a valid scheme before `:` is split off and lower-cased |
| UrlParse.SplitNetlocOf | web-lambda/lambda_function.py:53 | the text after `//` up to the first `/`, `?` or `#` is the host |
| UrlParse.UrlParseHierarchical | web-lambda/lambda_function.py:53 | `scheme://host/path` parses into exactly that scheme (lower-cased), host and path, with no params, query or fragment |
| UrlParse.BucketOfHost | web-lambda/lambda_function.py:54 | the bucket of `<bucket>.<rest>` is `bucket` |
| UrlParse.KeyOfPath | web-lambda/lambda_function.py:55 | the key of `/<key>` is `key` |
| UrlParse.S3HostChars | audio_tagger/app/lambda_handler.py:91 | the host of a stored object URL holds no character that ends a host |
| UrlParse.S3UrlChars | audio_tagger/app/lambda_handler.py:91 | a stored object URL holds no character `urlparse` removes |
| UrlParse.BucketAndKeyOfS3ObjectUrl | audio_tagger/app/lambda_handler.py:91 | with web-lambda/lambda_function.py:52-56: the bucket and key read back from a stored object URL are the ones it was built from |
| Paths.AfterLast | object-detection-lambda/lambda_handler.py:42-43 | `os.path.basename` (after `/`) and `rsplit(".", 1)[-1]` (after `.`): a suffix of the text holding no separator, the whole text when it has none |
| Paths.SplitExt | object-detection-lambda/image_video_tagger.py:56 | `os.path.splitext`: the two parts rebuild the path, and the extension is empty or one dot followed by text with no dot or slash |
| Paths.SplitExtAgreesWithRsplit | object-detection-lambda/lambda_handler.py:44 | with object-detection-lambda/image_video_tagger.py:56: whenever `splitext` finds an extension it is a dot followed by what `rsplit` returns |
| Paths.SplitExtOfName | object-detection-lambda/image_video_tagger.py:56 | a file name with a non-dot before its last dot splits exactly at that dot |
| Paths.LeadingDotName | object-detection-lambda/lambda_handler.py:44 | with object-detection-lambda/image_video_tagger.py:56: for `.jpg` the two functions disagree; `splitext` sees no extension while `rsplit` returns `jpg` |
| Paths.LastIndexOfIs | object-detection-lambda/lambda_handler.py:44 | an occurrence with none after it is the last one |
| Paths.InDirectory | object-detection-lambda/lambda_handler.py:52 | `os.path.join(tmp, fname)` keeps the file's base name and its extension |
| Paths.DottedAfter | object-detection-lambda/image_video_tagger.py:98 | the extension of a path whose last component has a dot is that component's extension |
| Paths.UndottedAfter | object-detection-lambda/image_video_tagger.py:98 | a path whose last component has no dot has no extension, even with dots in the directories |
| ModelStore.WithSuffix | object-detection-lambda/lambda_handler.py:26 | the candidates are exactly the listed objects whose lower-cased key ends with the suffix |
| ModelStore.Newest | object-detection-lambda/lambda_handler.py:30 | `max` by `LastModified` returns a candidate at least as new as every other |
| ModelStore.NewestIsFirst | object-detection-lambda/lambda_handler.py:30 | every candidate listed before the first occurrence of the chosen one is strictly older |
| ModelStore.NewestMaximalFirst | object-detection-lambda/lambda_handler.py:30 | any candidate as new as the chosen one is not listed before the chosen one's first occurrence, so `max` keeps the first of equals |
| ModelStore.LatestWithSuffix | object-detection-lambda/lambda_handler.py:20-35 | none exactly when no key ends with the suffix (the `RuntimeError`); otherwise a listed object with the suffix, at least as new as every other such object |
| Counters.Empty | object-detection-lambda/image_video_tagger.py:117 | `Counter()`: a well-formed counter with no keys |
| Counters.Put | object-detection-lambda/image_video_tagger.py:143 | assigning a key sets its value, appends the key when new and keeps the insertion order otherwise |
| Counters.TotalPositive | object-detection-lambda/image_video_tagger.py:71 | with positive counts, the sum is positive exactly when some key is present, and at least the number of keys |
| Counters.Tally | object-detection-lambda/image_video_tagger.py:68 | `Counter(names)` is well formed and every count is positive |
| Counters.TallyCounts | object-detection-lambda/image_video_tagger.py:68 | each name's count is its number of occurrences, and it is a key exactly when it occurs |
| Counters.SumNatBump | object-detection-lambda/image_video_tagger.py:69 | adding one to a key adds one to the sum of the values when the key is counted |
| Counters.TotalBump | object-detection-lambda/image_video_tagger.py:69 | adding one occurrence of a name adds one to the total |
| Counters.TallyTotal | object-detection-lambda/image_video_tagger.py:69 | `sum(Counter(names).values())` is the number of names |
| Counters.SumNatFresh | object-detection-lambda/image_video_tagger.py:69 | appending a new key with value v adds v to the sum |
| Counters.SumNatSame | object-detection-lambda/image_video_tagger.py:69 | the sum depends only on the values of the listed keys |
| Counters.Raise | object-detection-lambda/image_video_tagger.py:142-143 | one step of the loop: a key's count becomes v when v is larger, and every other count is unchanged |
| Counters.RaiseAll | object-detection-lambda/image_video_tagger.py:141-143 | the loop over a frame's counts keeps the counter well formed |
| Counters.RaiseAllIsMax | object-detection-lambda/image_video_tagger.py:141-143 | after the first i frame counts, each count is the larger of the old count and the frame's count when the key is among those i |
| Counters.RaiseAllMax | object-detection-lambda/image_video_tagger.py:141-143 | after the whole loop, each count is the larger of the old count and the frame's count |
| Counters.RaiseAllPositive | object-detection-lambda/image_video_tagger.py:141-143 | the loop only stores positive counts |
| Tagger.KeptSpecies | object-detection-lambda/image_video_tagger.py:46-51 | a species is kept exactly when some box of it has confidence above the threshold; none is kept exactly when no box is above it |
| Tagger.AnnotatedImageName | object-detection-lambda/image_video_tagger.py:55-57 | the name begins with the stem and `_annotated` and ends with the original extension |
| Tagger.TagImage | object-detection-lambda/image_video_tagger.py:40-82 | detected exactly when some box is above the threshold; each species' tag count is its number of kept boxes; file, type and extension without its dot |
| Tagger.TallyCountsAll | object-detection-lambda/image_video_tagger.py:68 | every name's count is its number of occurrences |
| Tagger.ImageTagsAddUp | object-detection-lambda/image_video_tagger.py:68-69 | the image's tag counts add up to the number of kept boxes |
| Tagger.FourCC | object-detection-lambda/image_video_tagger.py:85-87 | `XVID` exactly for `avi` after stripping leading dots, `mp4v` for everything else |
| Tagger.Heaviest | object-detection-lambda/image_video_tagger.py:136 | `max(accum[tid], key=...)`: one of the track's species, whose weight is at least that of every other |
| Tagger.HeaviestIsFirst | object-detection-lambda/image_video_tagger.py:136 | of several species sharing the largest confidence, the one chosen comes first in insertion order: every species before it weighs strictly less |
| Tagger.AddConfidence | object-detection-lambda/image_video_tagger.py:134 | adding confidence keeps the counter well formed and the species among its keys |
| Tagger.Observe | object-detection-lambda/image_video_tagger.py:132-137 | one detection keeps every track's accumulator well formed |
| Tagger.GatheredLocks | object-detection-lambda/image_video_tagger.py:134-136 | adding confidence to an unlocked track keeps every other lock and keeps all locks consistent with their accumulators |
| Tagger.ObserveLocks | object-detection-lambda/image_video_tagger.py:133-136 | a lock, once taken, never changes, and every lock is the heaviest species of a track whose total reached `lock_after` |
| Tagger.ObserveLabel | object-detection-lambda/image_video_tagger.py:133-137 | a locked track shows its lock and changes nothing; an unlocked one locks exactly when its total reaches `lock_after`, and until then shows the detected species |
| Tagger.LabelFrame | object-detection-lambda/image_video_tagger.py:130-137 | one label per detection, and the accumulators stay well formed |
| Tagger.LabelFrameLocks | object-detection-lambda/image_video_tagger.py:130-137 | across a frame, locks stay consistent and are never changed |
| Tagger.NoTracks | object-detection-lambda/image_video_tagger.py:113-114 | the tracking state starts with no lock |
| Tagger.Run | object-detection-lambda/image_video_tagger.py:119-148 | the frame loop keeps the counts well formed and labels every frame |
| Tagger.RunLocks | object-detection-lambda/image_video_tagger.py:119-143 | over the whole video every lock stays consistent with its track's gathered confidence |
| Tagger.RunMaxCounts | object-detection-lambda/image_video_tagger.py:116-143 | `max_frame_counts[k]` is the largest number of `k` labels in any one frame, and every stored count is positive |
| Tagger.MostAtOnceAtLeast | object-detection-lambda/image_video_tagger.py:140-143 | the maximum is at least the count in each frame |
| Tagger.MostAtOnceWitness | object-detection-lambda/image_video_tagger.py:140-143 | a positive maximum comes from a frame with a detection |
| Tagger.RunLabelsPerFrame | object-detection-lambda/image_video_tagger.py:130-137 | every frame has as many labels as tracked detections |
| Tagger.DetectionCounts | object-detection-lambda/image_video_tagger.py:140-143 | a frame with a detection leaves some species counted |
| Tagger.CountedDetection | object-detection-lambda/image_video_tagger.py:140-143 | some species is counted only if some frame had a detection |
| Tagger.RunDetects | object-detection-lambda/image_video_tagger.py:153-158 | the counts add up to more than zero exactly when some frame had a tracked detection |
| Tagger.VideoOutputName | object-detection-lambda/image_video_tagger.py:97-99 | the annotated video's name as intended: the stem and `_annotated`, ending with the extension as the file has it |
| Tagger.VideoOutputNameAsWritten | object-detection-lambda/image_video_tagger.py:97-99 | the name as written ends with the lower-cased extension |
| Tagger.LabelDetections | object-detection-lambda/image_video_tagger.py:130-137 | the detection loop's new `accum`, `locked` and labels are those of the frame-labelling function |
| Tagger.RaiseCounts | object-detection-lambda/image_video_tagger.py:140-143 | each count afterwards is the larger of the count before and the frame's count |
| Tagger.TagVideo | object-detection-lambda/image_video_tagger.py:91-168 | detected exactly when some frame had a tracked detection; each tag is the largest number of that species labelled in one frame; file, type and extension without its dot |
| DetectionHandler.MediaIgnoresCase | object-detection-lambda/lambda_handler.py:45-46 | the picture/video decision ignores case, and a supported extension has three or four letters |
| DetectionHandler.ExpectedAnnotation | object-detection-lambda/lambda_handler.py:63-70 | the expected output has no slash when the file has none and ends with a dot and the `rsplit` extension |
| DetectionHandler.ItemFor | object-detection-lambda/lambda_handler.py:98-119 | the item's id and time are the upload time; not deleted; format and media id from the file name; tags and detection from the metadata; the three URLs; a duration only for a video |
| DetectionHandler.Handle | object-detection-lambda/lambda_handler.py:38-119 | 415 exactly for an unsupported extension; the missing-model error exactly when no `.pt` is listed; `FileNotFoundError` exactly when the expected file is not in the temporary directory; otherwise the item built from the tagger's metadata |
| DetectionHandler.ExpectedIsWritten | object-detection-lambda/lambda_handler.py:63-73 | with object-detection-lambda/image_video_tagger.py:55-57 and 97-99: where `splitext` finds an extension, the expected name is the one the tagger writes |
| DetectionHandler.PresignedUploadsFindAnnotation | object-detection-lambda/lambda_handler.py:63-73 | with pre_sign_url_lambda/pre_sign_lambda.mjs:32-36: for every supported upload key the presign Lambda issues, the annotated copy is found |
| DetectionHandler.UploadKeyFile | pre_sign_url_lambda/pre_sign_lambda.mjs:32-36 | with object-detection-lambda/lambda_handler.py:43: the base name of an upload key is the name, time stamp, random number and extension |
| DetectionHandler.SupportedHasNoDash | object-detection-lambda/lambda_handler.py:45-46 | a supported extension has no dash |
| DetectionHandler.UploadNameHasExtension | object-detection-lambda/lambda_handler.py:43-44 | the base name of a supported upload key has an extension `splitext` sees |
| DetectionHandler.DottedUploadSplits | object-detection-lambda/lambda_handler.py:63 | a file part ending in a non-dot followed by a one-dot extension keeps that extension under `splitext` |
| DetectionHandler.ExtensionlessUpload | object-detection-lambda/lambda_handler.py:44-48 | an upload of a file without a dot is refused as unsupported |
| DetectionHandler.LowerCasedVideoNameDiffers | object-detection-lambda/image_video_tagger.py:98-99 | with object-detection-lambda/lambda_handler.py:70: whenever the extension has an upper-case letter, the tagger's name differs from the expected one |
| DetectionHandler.ClipIsAffectedVideo | object-detection-lambda/lambda_handler.py:44-46 | `clip.MP4` is a supported video whose extension changes when lower-cased |
| DetectionHandler.UpperCaseVideoExtensionLost | object-detection-lambda/lambda_handler.py:70-73 | for `clip.MP4` the written name is not the expected one, so the handler raises; the corrected name is the expected one |
| AudioTagger.WindowAndHop | audio_tagger/app/audio_tagger.py:14-17 | window and hop are the truncated products of seconds and sample rate; the window is six hops |
| AudioTagger.FrameCount | audio_tagger/app/audio_tagger.py:38 | at least one frame, and exactly one for a signal no longer than a window |
| AudioTagger.Frames | audio_tagger/app/audio_tagger.py:35-39 | as many frames as the frame count |
| AudioTagger.FramesTileSignal | audio_tagger/app/audio_tagger.py:35-39 | every frame is a full window at a multiple of the hop, and less than a hop of the signal is left uncovered at the end |
| AudioTagger.UpperCaseWavIsConverted | audio_tagger/app/audio_tagger.py:47 | the `.wav` test is case-sensitive: a path ending in any other letter case of `.wav` (`.WAV`, `.Wav`, ...) is sent to ffmpeg |
| AudioTagger.BestScore | audio_tagger/app/audio_tagger.py:68 | `scores.max(axis=0)[c]`: the score of some frame, and no frame scores higher |
| AudioTagger.SelectedBelow | audio_tagger/app/audio_tagger.py:69 | a class is selected exactly when its best score reaches the threshold; increasing order |
| AudioTagger.SelectedIffSomeFrame | audio_tagger/app/audio_tagger.py:68-69 | a class is selected exactly when some frame scored it at least the threshold |
| AudioTagger.SpeciesOf | audio_tagger/app/audio_tagger.py:70 | an `IndexError` exactly when a selected class has no label; otherwise the labels of the selected classes, each mapped to 1 |
| AudioTagger.Main | audio_tagger/app/audio_tagger.py:41-74 | the `ValueError` exactly for a signal shorter than a window; the `IndexError` of `labels[i]` exactly when the signal fills a window and some selected class has no line in the label file; duration is samples over rate; every species maps to 1 |
| AudioTagger.ReportedSpecies | audio_tagger/app/audio_tagger.py:44-70 | a species is reported exactly when some frame scored a class whose stripped label is that species at least the threshold |
| AudioHandler.SupportedHasExtension | audio_tagger/app/lambda_handler.py:65-70 | a supported file has an extension `splitext` sees, and its format is the lower-cased text after the last dot |
| AudioHandler.Handle | audio_tagger/app/lambda_handler.py:60-102 | 415 exactly for an unsupported extension; the `.tflite` error exactly when no model is listed; the `.txt` error exactly when there is a model but no label file; the tagger's `ValueError` exactly for a short signal, and its `IndexError` exactly for a selected class without a label |
| AudioHandler.StoredExactly | audio_tagger/app/lambda_handler.py:60-96 | an item is stored exactly when the file is supported, the model and label file are found, the signal fills a window and every selected class has a label |
| AudioHandler.StoredItem | audio_tagger/app/lambda_handler.py:78-96 | the stored item: id and time are the upload time, not deleted, lower-cased format, only the original URL, detected exactly when some species was found, every species with count 1, the same species as the returned metadata |
| AudioHandler.StoredSpecies | audio_tagger/app/lambda_handler.py:78-94 | with audio_tagger/app/audio_tagger.py:68-70: a species is stored exactly when some frame scored a class with that label at least the threshold |

## Left out

- S3, DynamoDB, SNS, Cognito, `fetch`/`axios` and `createPresignedPost` are not called: a table scan is a given sequence of items, a listing a given sequence of objects, a presigned URL an input, and the success or failure of a call a boolean.
- YOLO, ByteTrack, the supervision annotators and OpenCV reading, drawing and writing are not modelled: the boxes of an image and the tracked detections of each video frame are inputs.
- TFLite, librosa/soundfile and the ffmpeg conversion are not modelled: the decoded signal and the classifier's score matrix are inputs, and `AudioHandler.Consistent` requires the matrix to have one row per frame and one column per class, as the classifier produces.
- The label file is given as its lines; reading it and the other temporary files is not modelled. Which files exist in the temporary directory is a set of names.
- Floating point: confidences, scores and durations are `real`. Rounding of the video duration happens outside the model (it is an input string); the Decimal conversion of sizes and counts is the identity on the model's integers.
- Failures of I/O calls inside the Lambdas (download, upload, `put_item`) are not modelled; only the error conditions the code raises or returns itself are.
- Lower- and upper-casing are ASCII only; non-ASCII case folding is not modelled.
- JavaScript `Number` is modelled by a restricted grammar: blank text is 0, an optional sign and decimal digits is that integer, and everything else (fractions, exponents, hexadecimal, `Infinity`) is NaN.
- Python `int` is modelled as an optional sign and decimal digits after `strip`; underscores and non-ASCII digits are not accepted.
- JSON numbers are integers: a fractional number in a request or a stored item (a count of `/modify-tags` or of a tag-count query, a value sent to `/sns-alert`) is not modelled.
- JavaScript `Object.entries` order for integer-like keys (which come first) is not modelled; objects keep insertion order.
- The order of `list(set(...))` in `user_tags_updater.py` is not modelled: the stored tags are stated as a set.
- `JSON.stringify` and `json.dumps` are not modelled: request and response bodies are JSON values. The one `json.dumps` failure the alert-preferences Lambda can reach, a stored number read back as `Decimal`, is modelled.
- SearchApp.Normalize: `length > 0` converts the `length` property of an object as JavaScript's `Number` does within the restricted grammar above; an object whose own `valueOf` or `toString` field is not a function (a `TypeError` in JavaScript) is taken as NaN.
- A `KeyError` from a DynamoDB-stream record without the expected keys in `bird_notification_publisher.py` is not modelled; records are assumed to carry them.
- URL-encoding of keys in S3 event records is not modelled: the key is taken as given.
- The empty DynamoDB key returned for an attribute without a type key is modelled only as a missing value.
- `frontend/src/Uploadfile.jsx` is not part of this model: it only sends files, and its single `try` around the loop stops at the first failure.
- `thumbnails-lambda/ThumbnailFunction.py` is not part of this model: it is image resizing with floating-point scale factors.
- Login, confirmation, routing, session storage, rendering, alerts, loading flags and the four-second delay before navigation after sign-up are not modelled.
- `/query-by-file` in the web Lambda calls a placeholder detector; the model uses the same fixed result (`crow`: 1, `pigeon`: 2).
- UserAccount.ValuesArray: states which values are kept and that each is trimmed and non-empty, but not that they keep the input's order.
- TagsUpdater.Merge: the merged set keeps `true` and `1` (and `false` and `0`) apart, while a Python set holds only one of each pair because they are equal.
- UrlParse.BucketAndKey: fails exactly where the modelled `urlparse` raises, for unbalanced brackets in the network location; the validation of a bracketed host (Python 3.11.4 and later) and the NFKC check of a non-ASCII network location also raise `ValueError` in Python but are modelled as parsing.
- AudioHandler.StoredItem: states that the item's tags and the returned tags have the same species and that each stored count is 1, not equality of the two maps (the returned map also has every value 1).

Behaviour of the code worth noting:
- The tags-only search sends `" , "` (the blank test is on the whole text), so the backend receives `tag=,`.
- The web Lambda falls back to an all-integer body as the tag-count map only for POST `/search`.

## Findings

| source | as written | input that shows it | evidently intended | confidence | as-written member | corrected member |
|---|---|---|---|---|---|---|
| object-detection-lambda/image_video_tagger.py:98-99 | `tag_video` lower-cases the extension of the annotated video's name, while object-detection-lambda/lambda_handler.py:70-73 looks for the name with the extension as uploaded and raises `FileNotFoundError` when it is missing | a video uploaded as `clip.MP4`: the tagger writes `clip_annotated.mp4`, the handler looks for `clip_annotated.MP4` | keep the extension's case, so every supported upload finds its annotated copy | high, not executed | Tagger.VideoOutputNameAsWritten (shown by DetectionHandler.UpperCaseVideoExtensionLost and DetectionHandler.LowerCasedVideoNameDiffers) | Tagger.VideoOutputName (used by Tagger.TagVideo and DetectionHandler.Handle; DetectionHandler.PresignedUploadsFindAnnotation) |
