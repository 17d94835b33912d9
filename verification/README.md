# WinDocks builder: a Dafny model

This project models the logic of the Jenkins build step `WinDocksBuilder`.
The step asks a Docker engine to create a container from an image and to start it.
Its configuration form also lists the engine's images and validates the host field.

The model covers four pieces of that logic:

- **Create-request payload** (`Payload`). The fixed JSON template has one `%s` hole. `String.format` fills it with the image name, unescaped.
- **Container-id extraction** (`Lines`, `Splitting`, `ContainerId`). The response body is read line by line with `readLine`, and the lines are appended to one buffer. The buffer is cut at the first match of `\s+\\u0026\s+`. The first part is split on `\s+=\s+`. The second field, if there is one, is the identifier; otherwise the result is `null`.
- **Launch flow** (`Launcher`). `CreateContainer` works as follows:
  - It checks its arguments for `null`.
  - It POSTs the payload.
  - On 201 it extracts the identifier and calls `StartContainer`.
  - `StartContainer` POSTs the start request and reports `true` on 204.
  - Every exception is caught and turned into `false`.
- **Image listing and validation** (`Catalog`):
  - `GetImages` walks the decoded images and their `RepoTags`, and keeps the part of each tag before its first colon.
  - `doFillImageItems` turns the array into list items, or into no item when anything throws.
  - `doCheckIpAddress` flags the empty host.

Java's values are modelled explicitly:

- A `null` reference is `Values.Nullable`.
- A call that may throw returns `Values.Try`. Only "returned" versus "threw" is kept, because every handler in the modelled code catches everything.
- `String.format` is modelled for templates whose only conversions are `%s` (`Formatting.Format`). A `null` argument is written as `null` (`Values.Render`).
- `String.split` with a limit of 0 is modelled (`Splitting.Split`):
  - When nothing matches, it gives the whole string, even the empty one.
  - Otherwise it drops the trailing empty pieces.
  - `\s` is Java's predefined class: space, tab, newline, vertical tab, form feed and carriage return.
- `readLine` is modelled (`Lines.ReadLines`). It ends a line at `\n`, at `\r`, or at the pair `\r\n`.

The engine is not modelled. Its replies are an input:

- `Launcher.Engine` holds the creation reply and the start reply.
- `Catalog.ListReply` holds the decoded image array, or a failure.
- Each operation returns the requests it issued, identified by URL. `CreateContainer` also returns the body it sent, as `Launcher.PayloadFor(image)`; that body's text is `Payload.CreatePayload(image)` (`Launcher.BodyText`).

In three places the code is at odds with itself, or with what it evidently means to do. The model follows the code as written:

- Only `null` is rejected. The field validator (`doCheckIpAddress`, lines 262-263) flags an empty host, but the guards of `CreateContainer` (line 94) and `GetImages` (line 334) reject only `null`. The validator's own Javadoc (lines 255-256) says an error does not prevent the form from being saved. So an empty host is still sent both requests (`Catalog.EmptyHostFlaggedYetUsed`), and an empty image is sent too (`Launcher.EmptyArgumentsAreSent`).
- A launch without an identifier is evidently meant to fail. Instead, a `null` identifier is passed to the start request (see Findings).
- An engine with no tagged image evidently means an empty list. Instead, it yields one `null` item (see Findings).

## Model

| member | source | states |
|---|---|---|
| Formatting.FormatLiteral | src/main/java/windockspkg/windocksplug/WinDocksBuilder.java:126 | a template without `%` is copied unchanged, whatever the arguments |
| Formatting.FormatHole | src/main/java/windockspkg/windocksplug/WinDocksBuilder.java:126 | a `%s` after a literal run writes that run, then the next argument, then formats the rest of the template with the remaining arguments |
| Formatting.FormatLiteralPrefix | src/main/java/windockspkg/windocksplug/WinDocksBuilder.java:126 | a literal run in front of a template is copied in front of its formatted text |
| Formatting.FormatOne | src/main/java/windockspkg/windocksplug/WinDocksBuilder.java:126 | formatting `a%sb` writes `a`, the argument, then `b` |
| Formatting.FormatTwo | src/main/java/windockspkg/windocksplug/WinDocksBuilder.java:128-129 | formatting `a%sb%s` writes `a`, the first argument, `b`, the second argument |
| Formatting.FormatThree | src/main/java/windockspkg/windocksplug/WinDocksBuilder.java:194-195 | formatting `a%sb%sc%s` writes the three literal runs with the three arguments between them, in order |
| Payload.LiteralRunsHaveNoPercent | src/main/java/windockspkg/windocksplug/WinDocksBuilder.java:104-124 | no literal run of the payload template holds a `%`, so its one `%s` is its only conversion |
| Payload.CreatePayload | src/main/java/windockspkg/windocksplug/WinDocksBuilder.java:104-126 | the payload is the fixed prefix, then the image name verbatim, then the fixed suffix |
| Payload.ImageSlotRoundTrip | src/main/java/windockspkg/windocksplug/WinDocksBuilder.java:104-126 | the image name can be read back, unchanged, from the `Image` slot of the payload built from it |
| Payload.PayloadInjective | src/main/java/windockspkg/windocksplug/WinDocksBuilder.java:104-126 | different images give different payloads |
| Payload.PayloadsDifferOnlyInImage | src/main/java/windockspkg/windocksplug/WinDocksBuilder.java:104-126 | any two payloads share the same prefix and suffix, and their lengths differ only by the lengths of the images |
| Launcher.CreateUrl | src/main/java/windockspkg/windocksplug/WinDocksBuilder.java:128-129 | the creation URL is `http://` + host + `/containers/create` |
| Launcher.StartUrl | src/main/java/windockspkg/windocksplug/WinDocksBuilder.java:194-195 | the start URL is `http://` + host + `/containers/` + identifier (or `null`) + `/start` |
| Launcher.StartContainer | src/main/java/windockspkg/windocksplug/WinDocksBuilder.java:189-218 | one POST without a body to the start URL; `true` exactly on 204; an exception exactly when the round trip throws |
| Launcher.CreateContainer | src/main/java/windockspkg/windocksplug/WinDocksBuilder.java:90-158 | a null host or image gives `false` with no request; otherwise the first request is the creation POST whose body is the payload built from the image; a start request follows exactly when creation answers 201 and extraction returns; the result is `true` exactly when, in addition, start answers 204; no exception escapes |
| Launcher.EmptyArgumentsAreSent | src/main/java/windockspkg/windocksplug/WinDocksBuilder.java:94-102 | the empty host and image pass the guards, and the creation request goes to `http:///containers/create` |
| Launcher.OtherCreateCodeFails | src/main/java/windockspkg/windocksplug/WinDocksBuilder.java:143-152 | any creation code other than 201 gives `false` with no start request |
| Launcher.NullSegment | src/main/java/windockspkg/windocksplug/WinDocksBuilder.java:194-195 | a `null` identifier is written as the four letters `null` in the start URL |
| Launcher.NullIdIsStarted | src/main/java/windockspkg/windocksplug/WinDocksBuilder.java:143-147 | when extraction returns `null`, the start request is still issued, to `.../containers/null/start` |
| Launcher.CompactReplyStartsNull | src/main/java/windockspkg/windocksplug/WinDocksBuilder.java:143-147 | a creation reply with no whitespace once its line terminators are removed (so a final newline is allowed), such as a compact JSON object, starts the container named `null`, and the launch reports success if that request gets 204 |
| Launcher.EngineReplyStartsNull | src/main/java/windockspkg/windocksplug/WinDocksBuilder.java:143-147 | the reply a Docker engine sends, `{"Id":"4fa6e0f0c678","Warnings":[]}`, with or without a final newline, has the launcher start the container named `null`, and the launch reports success if that request gets 204 |
| Launcher.CanonicalReplyStartsThatContainer | src/main/java/windockspkg/windocksplug/WinDocksBuilder.java:143-147 | a reply `key = id \u0026 rest`, where key and id hold no whitespace and id is non-empty and does not start with `\`, starts container `id`, and the launch succeeds exactly when start answers 204 |
| Launcher.CreateContainerGuarded | src/main/java/windockspkg/windocksplug/WinDocksBuilder.java:143-147 | corrected flow: a start request is issued only for a non-null identifier, and success needs one |
| Launcher.GuardedNullIdNotStarted | src/main/java/windockspkg/windocksplug/WinDocksBuilder.java:143-147 | with the correction, a `null` identifier fails the launch after the creation request alone |
| Lines.ReadLines | src/main/java/windockspkg/windocksplug/WinDocksBuilder.java:170-174 | no line holds a terminator, and there is at least one line exactly when the body is not empty |
| Lines.ReadLinesJoined | src/main/java/windockspkg/windocksplug/WinDocksBuilder.java:167-174 | the buffer after the read loop is the body with every `\n` and `\r` removed and nothing else changed |
| Lines.StripAppend | src/main/java/windockspkg/windocksplug/WinDocksBuilder.java:167-174 | removing terminators distributes over concatenation |
| Lines.StripKeeps | src/main/java/windockspkg/windocksplug/WinDocksBuilder.java:167-174 | a text without terminators is left unchanged |
| Splitting.MatchIsLongestRegexMatch | src/main/java/windockspkg/windocksplug/WinDocksBuilder.java:178-179 | a match reported for `\s+WORD\s+` is a match of the regular expression, and it extends as far as any match that starts at the same place |
| Splitting.RegexMatchFound | src/main/java/windockspkg/windocksplug/WinDocksBuilder.java:178-179 | when WORD does not start with whitespace, every match of the regular expression `\s+WORD\s+` at a position is found there and ends no later than the reported one |
| Splitting.Find | src/main/java/windockspkg/windocksplug/WinDocksBuilder.java:178-179 | the search returns the leftmost match at or after its start, or none when there is no match |
| Splitting.DropTrailingEmpty | src/main/java/windockspkg/windocksplug/WinDocksBuilder.java:178-179 | the result is a prefix of the pieces, ends with a non-empty piece, and only empty pieces were removed |
| Splitting.SplitHead | src/main/java/windockspkg/windocksplug/WinDocksBuilder.java:178-179 | the first element of a split is the text before the leftmost match |
| Splitting.SplitEmpty | src/main/java/windockspkg/windocksplug/WinDocksBuilder.java:178 | a split is empty only when a match starts the string and every piece is empty |
| Splitting.NoSpaceNoMatch | src/main/java/windockspkg/windocksplug/WinDocksBuilder.java:178-179 | a text without whitespace never matches `\s+WORD\s+`, so it is one piece |
| Splitting.AbsentWordNoMatch | src/main/java/windockspkg/windocksplug/WinDocksBuilder.java:178 | a text that lacks WORD's first character splits to itself |
| Splitting.CharPiecesJoin | src/main/java/windockspkg/windocksplug/WinDocksBuilder.java:359 | joining the pieces of a split on `:` with `:` restores the string, and no piece contains `:` |
| Splitting.CharSplitEmptyIff | src/main/java/windockspkg/windocksplug/WinDocksBuilder.java:359-360 | `split(":")` is empty exactly when the string is a non-empty run of colons |
| Splitting.SpacedSplitLaterElements | src/main/java/windockspkg/windocksplug/WinDocksBuilder.java:179-183 | every element of a `\s+=\s+` split after the first is non-empty and starts with a non-whitespace character |
| ContainerId.GetContainerId | src/main/java/windockspkg/windocksplug/WinDocksBuilder.java:160-187 | a null stream or a failing read throws; otherwise the identifier is extracted from the body with its line terminators removed |
| ContainerId.ThrowsOnlyOnLeadingSpace | src/main/java/windockspkg/windocksplug/WinDocksBuilder.java:178-179 | `parts[0]` can only fail when the text starts with whitespace |
| ContainerId.SeparatorAloneThrows | src/main/java/windockspkg/windocksplug/WinDocksBuilder.java:178-179 | a body that is only the separator makes `parts[0]` throw |
| ContainerId.IdNotEmpty | src/main/java/windockspkg/windocksplug/WinDocksBuilder.java:179-183 | a returned identifier is never empty and never starts with whitespace |
| ContainerId.CompactBodyGivesNull | src/main/java/windockspkg/windocksplug/WinDocksBuilder.java:178-186 | a text without whitespace yields `null` |
| ContainerId.CanonicalLayout | src/main/java/windockspkg/windocksplug/WinDocksBuilder.java:178-186 | `key = id \u0026 rest` (the six characters `\u0026` between single spaces), where key and id hold no whitespace and id is non-empty and does not start with `\`, yields exactly `id` |
| ContainerId.CanonicalReply | src/main/java/windockspkg/windocksplug/WinDocksBuilder.java:167-186 | a body in that layout yields `id`, whatever line terminators follow the separator |
| ContainerId.FieldSplit | src/main/java/windockspkg/windocksplug/WinDocksBuilder.java:179-183 | `key = id` splits on `\s+=\s+` into exactly `[key, id]` |
| ContainerId.OnlySecondField | src/main/java/windockspkg/windocksplug/WinDocksBuilder.java:179-183 | only field 1 is returned: `a = b = c` yields `b` |
| Catalog.TagName | src/main/java/windockspkg/windocksplug/WinDocksBuilder.java:359-363 | a tag yields no name exactly when it is made of colons alone; otherwise it yields its text before the first colon (the whole tag without one) |
| Catalog.NameOfTag | src/main/java/windockspkg/windocksplug/WinDocksBuilder.java:359-363 | `name:version` yields `name` |
| Catalog.TagsNamesAppend | src/main/java/windockspkg/windocksplug/WinDocksBuilder.java:357-365 | the names of two runs of tags are the names of the first run followed by the names of the second |
| Catalog.ImagesNamesAppend | src/main/java/windockspkg/windocksplug/WinDocksBuilder.java:353-367 | the same for two runs of images |
| Catalog.CollectNames | src/main/java/windockspkg/windocksplug/WinDocksBuilder.java:350-367 | the two nested loops compute the names of the decoded images, or throw as those names do |
| Catalog.CollectTagNames | src/main/java/windockspkg/windocksplug/WinDocksBuilder.java:357-365 | the inner loop computes the names of one `RepoTags` array, nothing for a null array, or throws as those names do |
| Catalog.TagsThrowIff | src/main/java/windockspkg/windocksplug/WinDocksBuilder.java:357-359 | the inner loop throws exactly when a tag is `null` |
| Catalog.ImagesThrowIff | src/main/java/windockspkg/windocksplug/WinDocksBuilder.java:353-359 | the outer loop throws exactly when an image is `null`, or a non-null `RepoTags` array holds `null` |
| Catalog.ImagesNamesFlatten | src/main/java/windockspkg/windocksplug/WinDocksBuilder.java:353-367 | without null images, the names are those of all tags of all images in order, skipping null `RepoTags`, with nothing merged or reordered |
| Catalog.TagsNamesSound | src/main/java/windockspkg/windocksplug/WinDocksBuilder.java:357-363 | each name is the text before the first colon of one of the tags, and there are no more names than tags |
| Catalog.ListingExample | src/main/java/windockspkg/windocksplug/WinDocksBuilder.java:353-367 | for any colon-free names `n1` and `n2`, an image tagged `n1:v1` and `n1:v2`, an image with null `RepoTags`, then one tagged `n2:v3` give `n1, n1, n2`: in order, repeats kept |
| Catalog.TwoTagsOneName | src/main/java/windockspkg/windocksplug/WinDocksBuilder.java:357-363 | two tags of one name give that name twice |
| Catalog.ListToArray | src/main/java/windockspkg/windocksplug/WinDocksBuilder.java:369 | `ArrayList.toArray(a)`: the list is copied to the front of `a` when it fits, the slot right after it is set to `null` when `a` has room to spare, the rest of `a` is kept, and a list that does not fit gets a fresh array of its own size |
| Catalog.OneSlotArray | src/main/java/windockspkg/windocksplug/WinDocksBuilder.java:369 | with the one-element array `new String[1]`, no names give `[null]` and any names give exactly the array of those names |
| Catalog.ImagesUrl | src/main/java/windockspkg/windocksplug/WinDocksBuilder.java:339 | the list URL is `http://` + host + `/images/json` |
| Catalog.GetImages | src/main/java/windockspkg/windocksplug/WinDocksBuilder.java:328-377 | a null host throws with no request; otherwise one GET to the list URL; the result returns exactly when the reply decodes and the names are read without exception, and it is then `toArray` of those names |
| Catalog.EmptyHostIsQueried | src/main/java/windockspkg/windocksplug/WinDocksBuilder.java:334-339 | the empty host is not refused; it is queried at `http:///images/json` |
| Catalog.FillImageItems | src/main/java/windockspkg/windocksplug/WinDocksBuilder.java:287-319 | there are no items exactly when the host is null or the listing throws; otherwise there is one item per array element |
| Catalog.NoTaggedImageGivesNullItem | src/main/java/windockspkg/windocksplug/WinDocksBuilder.java:297-300 | an engine whose images all have null `RepoTags` fills the list with a single `null` item |
| Catalog.FillImageItemsIntended | src/main/java/windockspkg/windocksplug/WinDocksBuilder.java:287-319 | corrected filling: one item per name in order, never a `null` item, and none on failure |
| Catalog.IntendedAgreesWithSomeNames | src/main/java/windockspkg/windocksplug/WinDocksBuilder.java:297-300 | the corrected and the written filling agree whenever there is at least one name |
| Catalog.EmptyHostFlaggedYetUsed | src/main/java/windockspkg/windocksplug/WinDocksBuilder.java:255-263 | the validator answers the empty host with the error "Please set a IP Address", yet the creation POST goes to `http:///containers/create` and the listing to `http:///images/json`: nothing enforces the validation |

## Left out

- HTTP I/O is replaced by the engine replies given as input:
  - `HttpURLConnection` setup, request method and headers;
  - `connect`;
  - the `DataOutputStream` that writes the payload;
  - `getResponseCode`;
  - the `disconnect` calls in the `finally` blocks.
- A URL that `new URL` rejects counts as a failed round trip (`CreateFails`, `StartFails`, `ListFails`). The model does not decide which host strings are malformed, and the trace still lists that request.
- `DataOutputStream.writeBytes` keeps only the low eight bits of each character. The model records the payload as the Java string, before that truncation.
- The response body is given as text. Its UTF-8 decoding, and any failure of it, is not modelled; a failing read is `ReadFails`.
- Gson decoding of the image list is not modelled. The input is the decoded array, with `null` allowed at every level. A record whose JSON lacks the `RepoTags` key keeps the field's initial value, `new String[1]`; callers supply that as `NonNull([Null])`.
- `String.format` is modelled for `%s` only, the one conversion the plugin uses.
- `ArrayList.toArray(T[])` is modelled from its documented behaviour (`Catalog.ListToArray`). The JDK is not part of this model.
- No regular-expression engine is modelled. Only the three separators `:`, `\s+=\s+` and `\s+\\u0026\s+` are modelled.
- The `ListBoxModel` item is the string it is built from. Its separate name and value are not modelled.
- `FormValidation` is modelled as ok or error-with-message. Its HTML rendering is not.
- These Jenkins parts are not modelled, because they hold no logic of the build step:
  - `perform` and its log lines;
  - the constructor and getters;
  - `DescriptorImpl`'s `load`, `save` and `configure`;
  - `isApplicable`, `getDisplayName` and `getDescriptor`.

## Findings

| source | as written | input that shows it | evidently intended | confidence | as-written member | corrected member |
|---|---|---|---|---|---|---|
| src/main/java/windockspkg/windocksplug/WinDocksBuilder.java:143-147 | the identifier from extraction is passed to `StartContainer` without a check, so `null` becomes the URL segment `null` | a 201 reply with body `{"Id":"4fa6e0f0c678","Warnings":[]}` (no ` = `), then 204 to the start request: the container named `null` is started and the launch reports success | a launch without an identifier fails without a start request | medium, not executed | Launcher.NullIdIsStarted | Launcher.CreateContainerGuarded |
| src/main/java/windockspkg/windocksplug/WinDocksBuilder.java:369 | `toArray(new String[1])` on an empty list returns the one-element array it was given, holding `null`, and that `null` becomes a list item | an engine whose only image has `"RepoTags": null` (or that has no image at all): the drop-down list shows one `null` item | no item when there is no name | high, not executed | Catalog.NoTaggedImageGivesNullItem | Catalog.FillImageItemsIntended |
