# Vimeo backup and folder-tree scripts, modelled in Dafny

Two Python scripts work on a Vimeo account through its REST API:

- `vimeo_bulk_download.py` downloads every video of the account into a directory tree that
  mirrors its folders. Each video file gets its metadata in a JSON file beside it.
- `vimeo_folder_structure.py` prints the account's folders and videos as a tree.

Both scripts read the folder list and build the same parent-to-children map from each folder's
`metadata.connections.parent_folder` link. Both page through the API with cursor
pagination and retry failing requests. They walk the map depth first, sorting names
case-insensitively and guarding against cycles.

The model replaces the JSON payloads with typed datatypes. The network is a response
source: `respond(k)` is what the (k+1)-th request receives. A local file is its
contents, and sleeps are recorded as values. The modules are:

| module | file | models |
|---|---|---|
| `Wrappers` | wrappers.dfy | `Option`, `Result` |
| `Sorting` | sorting.dfy | Python's stable `sorted`/`list.sort` with a key, as a stable insertion sort |
| `Filtering` | filtering.dfy | list comprehensions with a condition |
| `Text` | text.dfy | `extract_vimeo_id`/`extrair_id`, `safe_filename`, `nome_limpo`, Python's string order |
| `Payload` | payload.dfy | the folder, video and rendition payloads |
| `Hierarchy` | hierarchy.dfy | `build_folder_hierarchy`/`montar_mapa_pastas` |
| `Extension` | extension.dfy | `infer_ext` with the parts of `urlparse` and `Path.suffix` it uses |
| `BestFile` | bestfile.dfy | `choose_best_file` |
| `Api` | api.dfy | both `api_get` functions |
| `Pagination` | pagination.dfy | both `paginate` generators |
| `Download` | download.dfy | `download_file` |
| `Tree` | tree.dfy | `listar_videos_sem_pasta`, `ordenar_por_nome`, `imprimir_grupo_videos`, `imprimir_pasta`, `imprimir_estrutura` |
| `Traversal` | backup.dfy | `process_video`, `process_folder` and the run in `main` of the bulk script |

Imperative code is modelled as methods that are proved against recursive specification
functions. This covers the map build, both pagination loops, the folder script's retry
loop, the download loop, the video filter, and the two traversals (classes `Tree.TreePrinter`
and `Traversal.Backup`). The properties are then proved about those functions.

Behaviour as the code has it, which may be unexpected:

- In the folder script's `api_get`, a 429 consumes one of the five attempts.
- In the bulk script, every failure of `api_get` is retried up to five attempts, a 401 included. The exception is a Retry-After header that `int` cannot read or that is negative: the ValueError is not one of the retried exception types, so it ends the call at once.
- `download_file` raises only for statuses 400-599. Any other status outside 200 and 206 has its body written to the file as if it were the video.
- An exception from `download_file` is not caught. It escapes `process_video` and `main`, so a failed download ends the run. The model represents this as `ok == false`.
- A resumed request answered 200, by a server that ignores `Range`, gets the whole body appended to the partial file, which is opened in append mode. Download.AttemptStep keeps this.
- `safe_filename` keeps '.', so a folder named ".." joins as `base / ".."`. A root folder of that name makes the run write outside the output directory.
- `--overwrite` does not truncate an existing file. `download_file` resumes it with a `Range` request. For a complete file, the server answers 416, the file is deleted, the run sleeps 5 s, and the file is downloaded again.
- The bulk script has no folder-only mode.

## Model

| member | source | states |
|---|---|---|
| Text.ExtractIdSpec | vimeo_bulk_download.py:96-99 | "?" exactly for a missing or empty uri; otherwise the last '/'-separated segment of the uri with trailing slashes removed, and it contains no '/' |
| Text.TrimTrailingSlashesSpec | vimeo_bulk_download.py:99 | `rstrip("/")` returns a prefix of its input that does not end in '/', and every removed character is '/' |
| Text.AfterLastSlashSpec | vimeo_bulk_download.py:99 | `split("/")[-1]` is a suffix of its input with no '/', preceded by a '/' or by nothing |
| Text.LastSegmentUnique | vimeo_bulk_download.py:99 | a string has exactly one last segment |
| Text.TrimSlashesOf | vimeo_folder_structure.py:205 | stripping the trailing slashes from a core followed by any number of slashes gives back the core |
| Text.ExtractIdOfReference | vimeo_folder_structure.py:202-205 | the id of a resource reference `<prefix>/<id>`, with any number of trailing slashes, is `<id>` |
| Text.ExtractId | vimeo_bulk_download.py:96-99 | "?" for a missing or empty uri; otherwise a single segment, without '/' |
| Text.Sanitize | vimeo_bulk_download.py:178 | each character is kept when it is alphanumeric, space, '-', '_' or '.', and replaced by '_' otherwise; the length does not change |
| Text.Strip | vimeo_bulk_download.py:178 | `strip()` returns the slice `s[a..b]` of its input with only whitespace before `a` and from `b` on, and with no whitespace at either end |
| Text.SafeFilename | vimeo_bulk_download.py:177-178 | every character is alphanumeric, space, '-', '_' or '.'; the result is the sanitised name with the whitespace at both ends removed and nothing else removed |
| Text.SafeFilenameIdempotent | vimeo_bulk_download.py:177-178 | applying `safe_filename` to its own result changes nothing |
| Text.JoinWordsNormalised | vimeo_folder_structure.py:199 | words with no whitespace, joined by single spaces, have no leading, trailing or doubled space |
| Text.CleanName | vimeo_folder_structure.py:196-199 | the fallback for a missing or empty value; otherwise a string with no space at either end and no doubled space |
| Text.WordsOfJoin | vimeo_folder_structure.py:199 | splitting the single-space join of proper words gives back the words |
| Text.CleanNameSpec | vimeo_folder_structure.py:196-199 | the fallback exactly when the value is missing or empty; otherwise a normalised string (no edge or doubled space) with the same words as the value |
| Text.CleanNameIdempotent | vimeo_folder_structure.py:196-199 | cleaning a non-empty cleaned name leaves it unchanged |
| Text.CleanNameIgnoresFallback | vimeo_folder_structure.py:196-199 | the fallback does not matter for a non-empty value |
| Text.StrLtIrreflexive | vimeo_folder_structure.py:209 | no string sorts before itself |
| Text.StrLtTransitive | vimeo_folder_structure.py:209 | Python's string order is transitive |
| Text.StrLtTotal | vimeo_folder_structure.py:209 | of two different strings, one sorts before the other |
| Text.StrLtIsStrictTotalOrder | vimeo_folder_structure.py:209 | the string order used by every name sort is a strict total order |
| Sorting.SortByPermutes | vimeo_folder_structure.py:209 | `sorted` returns a permutation of its input |
| Sorting.SortBySorted | vimeo_folder_structure.py:209 | under a strict total order, the result is sorted by the key |
| Sorting.SortByStable | vimeo_folder_structure.py:209 | the elements of each key keep their input order |
| Sorting.SortByHead | vimeo_bulk_download.py:158-159 | the head of a stable sort is the first input element whose key nothing beats |
| Filtering.FilterMembers | vimeo_bulk_download.py:156 | an element is kept exactly when it is in the input and satisfies the condition |
| Filtering.FilterOrigin | vimeo_bulk_download.py:156 | the m-th kept element is an input element satisfying the condition, and the kept elements before it are those of the input before it |
| Filtering.FilterAppend | vimeo_folder_structure.py:169-181 | filtering a concatenation filters each part |
| Hierarchy.ParentId | vimeo_bulk_download.py:116-128 | no parent id exactly when no non-empty uri is found through the shapes of `connections` and `parent_folder`; a parent id contains no '/' |
| Hierarchy.Annotate | vimeo_bulk_download.py:113-129 | the id is "?" for a folder without a (non-empty) uri and otherwise a single segment without '/'; a parent id, when set, has no '/' either |
| Hierarchy.ParentShapesAgree | vimeo_bulk_download.py:116-128 | an object, a list whose first entry is it, a list of connections, or any nesting of these, give the same parent id: the id of the uri, or None for an empty uri |
| Hierarchy.NoParentShapes | vimeo_bulk_download.py:116-128 | absent or empty connections, an absent or empty `parent_folder`, a non-object entry and a missing uri all give no parent |
| Hierarchy.BuildFolderMap | vimeo_bulk_download.py:111-134 | the keys are the parent ids that occur plus None; under each key are exactly the folders with that parent id, annotated, in input order |
| Hierarchy.BucketCount | vimeo_folder_structure.py:131-153 | a folder appears in its parent's bucket as many times as in the listing, and in no other bucket |
| Hierarchy.BucketMembers | vimeo_folder_structure.py:131-153 | each bucket entry is a listed folder, annotated, filed under its own parent id |
| Hierarchy.BucketOutside | vimeo_bulk_download.py:133 | a key that no folder names as parent (the None key when every folder has one) has an empty bucket |
| Hierarchy.Children | vimeo_bulk_download.py:308-309 | the children looked up for an id are entries of the map |
| Extension.Find | vimeo_bulk_download.py:147 | the first occurrence of a character from a position, or -1 when there is none |
| Extension.RFind | vimeo_bulk_download.py:150 | the last occurrence of a character, or -1 when there is none |
| Extension.StripLeadingControls | vimeo_bulk_download.py:147 | `urlparse` drops the leading control characters and spaces of the link |
| Extension.RemoveUnsafe | vimeo_bulk_download.py:147 | `urlparse` drops every tab, CR and LF from the link and keeps every other character in order |
| Extension.Before | vimeo_bulk_download.py:147 | the part of a string before the first occurrence of a character |
| Extension.UrlPath | vimeo_bulk_download.py:146-149 | None on the unmatched-bracket ValueError, exactly when the netloc has an unmatched '[' or ']'; otherwise a prefix of what follows the netloc, without '?' or '#', cut at a '?', '#' or (for a scheme with parameters) ';' |
| Extension.PathCut | vimeo_bulk_download.py:147 | the path stops at the first '?' or '#', or at a ';' only when the scheme takes parameters |
| Extension.SplitParams | vimeo_bulk_download.py:147 | `_splitparams` keeps the path up to the first ';' at or after its last '/', and all of it when there is no such ';' |
| Extension.PathName | vimeo_bulk_download.py:150 | the name is a whole '/'-separated segment of the path, neither empty nor ".", followed only by slashes and "." segments; it is "" exactly when the path holds nothing else |
| Extension.Suffix | vimeo_bulk_download.py:150 | the suffix is a dot followed by no further dot that ends the name without being all of it; there is one exactly when a dot follows the first character and the name does not end in '.' |
| Extension.InferExt | vimeo_bulk_download.py:145-153 | the extension is always one of the eight allowed ones |
| Extension.PlainLinkPath | vimeo_bulk_download.py:147 | the path of `https://host/path?query` is `/path` |
| Extension.PlainPathName | vimeo_bulk_download.py:150 | the last component of `/dir/name` is `name` |
| Extension.PlainSuffix | vimeo_bulk_download.py:150 | the suffix of `file.ext` is `.ext` |
| Extension.InferExtOfPlainLink | vimeo_bulk_download.py:145-153 | for `https://host/dir/file.ext?query`, the lower-cased `.ext` when it is allowed, else ".mp4" |
| BestFile.AboveIsStrictTotalOrder | vimeo_bulk_download.py:158 | the descending lexicographic order on (height, bitrate) is a strict total order |
| BestFile.ChooseBestFile | vimeo_bulk_download.py:144-175 | a chosen file always carries an allowed extension |
| BestFile.FirstBestUnique | vimeo_bulk_download.py:157-159 | at most one entry is the first maximal one |
| BestFile.TopIsFirstBest | vimeo_bulk_download.py:156-159 | the head of the descending sort of the kept entries is the first maximal kept entry |
| BestFile.FilterEmpty | vimeo_bulk_download.py:157 | the kept list is empty exactly when no entry satisfies the condition |
| BestFile.ChooseBestFileSpec | vimeo_bulk_download.py:155-175 | None exactly when no file and no download entry has a link; the first maximal progressive MP4 when there is one; else the first maximal linked file; only then the first maximal download entry by (height, source/original), with its link and quality; the extension is inferred from the chosen link |
| Api.FolderApiGet | vimeo_folder_structure.py:52-85 | the loop's result, request count and sleeps are those of the attempt-by-attempt specification |
| Api.FolderBudget | vimeo_folder_structure.py:58-70 | at most `max_attempts` requests and at least one; a sleep after every request but the last, and after the last too when the attempts ran out; every sleep at least 1 s |
| Api.FolderSleepValues | vimeo_folder_structure.py:58-70 | every sleep follows a retried reply and is `attempt × 2` after a network error or `max(Retry-After, 1)` after a 429, for any mix of the two; earlier sleeps are kept |
| Api.FolderSuccess | vimeo_folder_structure.py:75-81 | a result is returned only from a reply below 400 whose body is JSON, on the last request |
| Api.FolderUnauthorizedImmediately | vimeo_folder_structure.py:72-73 | a first 401 fails at once: one request, no sleep |
| Api.FolderAnswerAfterRetries | vimeo_folder_structure.py:58-85 | after any number of network errors and 429s, the first other reply decides: a 401 raises the token error, any other status from 400 up an HTTP error, a body that is not JSON the JSON error, otherwise the body is returned; that reply is the last request |
| Api.FolderUnauthorizedAfterRetries | vimeo_folder_structure.py:72-73 | a 401 after retried replies fails the call on that request |
| Api.FolderAllRateLimited | vimeo_folder_structure.py:67-70 | when every reply is a 429, each one consumes an attempt and sleeps max(Retry-After, 1), and the call gives up after `max_attempts` requests |
| Api.FolderAllNetworkErrors | vimeo_folder_structure.py:59-65 | when every request fails at the network, the sleeps are 2, 4, … before each retry, and the last failure is raised |
| Api.BulkBudget | vimeo_bulk_download.py:66-75 | at most five requests; success only from a JSON reply outside 400-599 and not 429, on the last request; fewer than five requests only on success or a fatal error |
| Api.BulkRetriesUnauthorized | vimeo_bulk_download.py:66-74 | a 401 is retried like any other error: five requests, then the 401 is raised |
| Api.BulkApiGet | vimeo_bulk_download.py:66-75 | between one and five requests; fewer than five only on success or on an error that is not retried |
| Pagination.FirstParams | vimeo_bulk_download.py:78-80 | the first request's parameters are `per_page` and the query, a query key overriding `per_page` |
| Pagination.FollowLink | vimeo_bulk_download.py:90-93 | the next request's url starts with "http" and is the link itself or the link appended to the API base |
| Pagination.Paginate | vimeo_bulk_download.py:77-94 | the loop yields the items, makes the requests and ends as the page-by-page specification does |
| Pagination.PagesFromItems | vimeo_folder_structure.py:100-103 | the items yielded are exactly the `data` of the pages fetched, in page order |
| Pagination.PagesFromRequests | vimeo_folder_structure.py:97-113 | the first request carries the parameters; each later one has none and fetches the previous page's next link, made absolute |
| Pagination.PagesFromEnd | vimeo_folder_structure.py:105-108 | the listing stops exactly at a page without a next link, or at the error a request raised |
| Pagination.RelativeAndAbsoluteAgree | vimeo_bulk_download.py:90-93 | an API-relative next link and its absolute form lead to the same url |
| Download.Digits | vimeo_bulk_download.py:188 | the decimal numeral of a number is all digits |
| Download.DecimalOfDigits | vimeo_bulk_download.py:188 | reading back the numeral written into the `Range` header gives the number |
| Download.SuperscriptLengthRaises | vimeo_bulk_download.py:208 | a header such as "²" or "1¹" passes `isdigit` but not `int`; "1024" and "-1" do not raise |
| Download.DecimalIgnoresZeros | vimeo_bulk_download.py:208 | leading zeros do not change the value `int` reads |
| Download.DigitsOfDecimal | vimeo_bulk_download.py:208 | a numeral without leading zeros is the one written for its value |
| Download.LeadingZeros | vimeo_bulk_download.py:208 | the count of zeros leading a numeral, short of its last digit |
| Download.NumeralForm | vimeo_bulk_download.py:208 | every all-digit header is some zeros followed by the numeral of the value `int` reads |
| Download.ExpectedTotal | vimeo_bulk_download.py:207-208 | a total exactly when `Content-Length` is present and all ASCII digits, and then at least the resume position |
| Download.ExpectedTotalOfLength | vimeo_bulk_download.py:207-208 | for a header of any number of leading zeros followed by the numeral of `n`, the total is the resume position plus `n` |
| Download.RequestFor | vimeo_bulk_download.py:184-188 | a non-empty file is resumed with `Range: bytes=<size>-` in append mode; an empty one gets no Range and write mode |
| Download.AttemptStep | vimeo_bulk_download.py:184-226 | one attempt restarts exactly on a 416 to a resumed request; a ValueError or an HTTP error leaves the file as it was, and an HTTP error is raised only for a status `raise_for_status` rejects; the call finishes only on a reply whose stream completed and whose length header did not raise |
| Download.RetryWait | vimeo_bulk_download.py:232 | `min(5 × attempt, 60)`: 5 × attempt up to the cap, 60 beyond it, so between 5 and 60 s from the first attempt on |
| Download.DownloadFile | vimeo_bulk_download.py:180-236 | the loop's outcome, file, requests and sleeps are those of the attempt-by-attempt specification |
| Download.WriteChunks | vimeo_bulk_download.py:218-221 | the file afterwards is the file before followed by the chunks, in order |
| Download.DownloadBudget | vimeo_bulk_download.py:183-236 | at most `max_attempts` requests; the error is re-raised, or the RuntimeError raised, only once the budget is spent |
| Download.DownloadSleepCount | vimeo_bulk_download.py:198-234 | a wait follows every request but the last, and the last one too when the budget ran out |
| Download.DownloadWaits | vimeo_bulk_download.py:198-234 | earlier requests and waits are kept, and every wait lies between 5 and 60 s |
| Download.DownloadSpecHistory | vimeo_bulk_download.py:183-236 | each request is the one the file size at its start calls for; each sleep is the 416 backoff or the capped linear wait; the final file is what the attempts left |
| Download.FileAfterAppends | vimeo_bulk_download.py:184-223 | an attempt keeps the bytes on disk and appends what it received, unless its range is rejected |
| Download.ResumeKeepsBytes | vimeo_bulk_download.py:184-223 | until a range is rejected, the file is the initial bytes followed by everything received, in order |
| Download.RangeRejectedRestarts | vimeo_bulk_download.py:198-202 | a 416 on a resumed request empties the file, sleeps 5 s, and the next request starts from 0 without a Range header |
| Download.IntRaisesEndsCall | vimeo_bulk_download.py:207-208 | a 200 or 206 whose `Content-Length` passes `isdigit` but not `int` ends the call with the ValueError after that request: no retry, no wait, the file unchanged |
| Tree.ListVideosWithoutFolder | vimeo_folder_structure.py:167-182 | the loop keeps, in input order, the videos the filter keeps |
| Tree.VideosWithoutFolderMembers | vimeo_folder_structure.py:179-181 | a video is kept exactly when its `total` and its `totalCount` are each missing or zero |
| Tree.SortByName | vimeo_folder_structure.py:208-209 | the result is a permutation of the input |
| Tree.SortByNameSpec | vimeo_folder_structure.py:208-209 | sorted by the lower-cased cleaned name, and stable |
| Tree.ChildPrefix | vimeo_folder_structure.py:250 | the child prefix extends the parent's by one four-character column |
| Tree.LabelSpec | vimeo_folder_structure.py:252-273 | a line ends with `[pasta <id>]` or `[video <id>]`; before it is `<kind> <id>` when the name is missing or empty, otherwise the normalised name; the id contains no '/' |
| Tree.LineText | vimeo_folder_structure.py:283-317 | the account line is the account name; an entry line starts with its prefix and ends with its label; the unfiled header ends with "Sem pasta" |
| Tree.Items | vimeo_folder_structure.py:237-245 | every subfolder item listed under a folder is an entry of the map |
| Tree.ItemsOrder | vimeo_folder_structure.py:237-245 | the folder's subfolders come first, sorted by name and filed under its id, then its videos in listing order |
| Tree.GroupLines | vimeo_folder_structure.py:212-221 | one line per video of the group |
| Tree.TopItemsShape | vimeo_folder_structure.py:285-291 | the top-level folders come first; the "Sem pasta" group is last, and present exactly when some video is in no folder |
| Tree.TopFolders | vimeo_folder_structure.py:281 | the top-level folders are entries of the map |
| Tree.RenderFolderKeeps | vimeo_folder_structure.py:224-273 | each folder uri is expanded at most once and only if it is in the map; lines are only appended, each one indented under the folder's prefix |
| Tree.RenderItemsKeeps | vimeo_folder_structure.py:247-273 | the same for the items of one folder |
| Tree.RenderTopKeeps | vimeo_folder_structure.py:295-318 | the top level keeps every folder expanded at most once, and only appends lines |
| Tree.RenderStructureExpandsOnce | vimeo_folder_structure.py:276-318 | the tree starts with the account line, and no folder uri is expanded twice |
| Tree.RenderStructure | vimeo_folder_structure.py:276-318 | the account line comes first; when the listing of videos outside folders fails, nothing follows it and the run fails |
| Tree.TreePrinter.constructor | vimeo_folder_structure.py:282-293 | the printer starts with the account line and nothing visited |
| Tree.TreePrinter.PrintFolder | vimeo_folder_structure.py:224-245 | a folder with no uri or one already visited prints nothing; otherwise it is marked visited and, unless its video listing fails, its entries are printed: the resulting printout is the recursive specification's |
| Tree.TreePrinter.PrintEntries | vimeo_folder_structure.py:247-273 | the loop over a folder's entries leaves exactly the printout the specification gives for those entries, stopping where a nested listing fails |
| Tree.TreePrinter.CollectItems | vimeo_folder_structure.py:239-245 | the items are the subfolders followed by the videos |
| Tree.TreePrinter.PrintVideoGroup | vimeo_folder_structure.py:212-221 | appends one line per video and changes nothing else |
| Tree.PrintStructure | vimeo_folder_structure.py:276-318 | the printout is the specified one |
| Tree.TreePrinter.PrintTopLevel | vimeo_folder_structure.py:293-318 | the loop over the top-level entries leaves exactly the specified printout: each folder's line and subtree, the "Sem pasta" group's header and video lines |
| Traversal.Join | vimeo_bulk_download.py:299 | a path joined with a name is the path, or the path extended by the name |
| Traversal.VideoName | vimeo_bulk_download.py:265 | a given non-empty name is used as it is; otherwise `video_` followed by the last segment of the uri, without '/' |
| Traversal.FolderDirName | vimeo_bulk_download.py:298 | the directory name holds only safe characters, so no '/' |
| Traversal.DestName | vimeo_bulk_download.py:280 | the file name is a safe base followed by the chosen extension |
| Traversal.SortByBulkKey | vimeo_bulk_download.py:310 | the sorted subfolders are a permutation of the map's entries |
| Traversal.SortByBulkKeySpec | vimeo_bulk_download.py:310 | sorted by the lower-cased name, and stable |
| Traversal.SortedInMap | vimeo_bulk_download.py:314 | the sorted folders are still entries of the map |
| Traversal.RootFolders | vimeo_bulk_download.py:314 | the root folders are entries of the map |
| Traversal.BestFor | vimeo_bulk_download.py:269-275 | the chosen file, from the listing or from the details, carries an allowed extension |
| Traversal.AfterSave | vimeo_bulk_download.py:280-290 | saving a video changes neither the seen videos nor the visited folders |
| Traversal.AfterSaveKeeps | vimeo_bulk_download.py:282-290 | saving keeps the run consistent, and keeps existing video files untouched without `--overwrite` |
| Traversal.AfterVideo | vimeo_bulk_download.py:260-290 | processing a video visits no folder and forgets no seen video |
| Traversal.AfterVideoKeeps | vimeo_bulk_download.py:260-290 | each uri is recorded once; metadata is written only for seen videos; existing video files are kept without `--overwrite` |
| Traversal.AfterVideoSees | vimeo_bulk_download.py:261-264 | a video with a non-empty uri ends up among the seen ones |
| Traversal.AfterVideos | vimeo_bulk_download.py:304-305 | a folder's videos visit no folder and forget no seen video |
| Traversal.AfterVideosKeeps | vimeo_bulk_download.py:304-305 | the same invariants across a folder's videos |
| Traversal.AfterFolder | vimeo_bulk_download.py:292-311 | visited folders and seen videos only grow |
| Traversal.AfterFolderKeeps | vimeo_bulk_download.py:292-311 | the same invariants across a folder and its subtree, whose visited folders are all in the map |
| Traversal.AfterFolders | vimeo_bulk_download.py:310-311 | visited folders and seen videos only grow |
| Traversal.AfterFoldersKeeps | vimeo_bulk_download.py:310-311 | the same invariants across a list of subfolders |
| Traversal.AfterSweep | vimeo_bulk_download.py:320-322 | seen videos only grow |
| Traversal.AfterSweepKeeps | vimeo_bulk_download.py:320-322 | the same invariants across the final sweep |
| Traversal.AfterSweepCovers | vimeo_bulk_download.py:320-322 | if no error escaped, every video of the sweep with a uri has been seen |
| Traversal.RunGuarantees | vimeo_bulk_download.py:257-322 | each video uri is processed at most once; without `--overwrite` no existing video file changes; if no error escaped, every video of the account with a uri was processed |
| Traversal.AfterRun | vimeo_bulk_download.py:313-322 | the run succeeds only if the listing of all videos completed |
| Traversal.Backup.constructor | vimeo_bulk_download.py:257-258 | the run starts with the existing files, nothing seen and nothing visited |
| Traversal.Backup.ProcessVideo | vimeo_bulk_download.py:260-290 | the state afterwards is that of the video specification |
| Traversal.Backup.SaveVideo | vimeo_bulk_download.py:280-290 | the state afterwards is that of the save specification |
| Traversal.Backup.ProcessVideos | vimeo_bulk_download.py:304-305 | the state afterwards is that of the specification over the folder's videos |
| Traversal.Backup.ProcessFolder | vimeo_bulk_download.py:292-311 | the state afterwards is that of the folder specification |
| Traversal.Backup.ProcessFolders | vimeo_bulk_download.py:310-311 | the state afterwards is that of the specification over the subfolders |
| Traversal.Run | vimeo_bulk_download.py:313-322 | the final state is that of the run specification |

## Left out

- HTTP is not modelled. A response is a status, the headers the code reads, and a body that is a typed payload or not JSON. Payload shapes on which Python would crash are excluded by the types: a non-dict entry, a non-string uri, a `data` that is not a list.
- JSON null and an absent key are both `None`. They differ only where Python crashes on null. One example: the sort key `x.get("name", "").lower()` of the bulk script raises on a null name, and the model sorts that name as "".
- Unicode `isalnum`, `isspace`, `lower` and `isdigit` are modelled on ASCII and Latin-1. Other characters count as not alphanumeric, not space, not digits, and are left unchanged by `lower`. Within Latin-1, `isdigit` also accepts the superscripts ², ³ and ¹, which `int` rejects; `download_file` then raises ValueError (Download.SuperscriptLengthRaises, Download.IntRaisesEndsCall).
- `urlparse` and `Path.suffix` are modelled only for what `infer_ext` uses: the control-character cleanup, scheme, netloc, query, fragment and `;params` split, then the last path component and its suffix. Its ValueError for a netloc with an unmatched '[' or ']' is modelled, and `infer_ext`'s `except` branch then answers ".mp4". Its other netloc checks are left out, and the model takes those netlocs as valid: the NFKC check, which raises when a non-ASCII netloc normalises to one holding '/', '?', '#', '@' or ':' (U+2100 becomes "a/c"); the newer checks of a bracketed host; and the port validation. For such a link `infer_ext` answers ".mp4", and the model reads the suffix of the path.
- Extension.UrlPath: None only on the unmatched-bracket ValueError. The NFKC netloc check, the bracketed-host checks and the port validation of `urlsplit` are not modelled, so a netloc they refuse gives a path here. The contract also does not say which ';' ends the path: Extension.SplitParams states that it is the first ';' at or after the last '/'.
- Extension.InferExt: the contract states only that the extension is allowed. That it is the lower-cased suffix when allowed is proved for plain links, by Extension.InferExtOfPlainLink, and not for every link.
- The retry decorator of the bulk `api_get`: only its five attempts are modelled, not its exponential wait schedule.
- `time.sleep` is recorded as values, not performed.
- Traversal.Join and Traversal.AfterSave: paths are lists of components compared as written. Neither ".." nor case folding is resolved, so `a/../x.mp4` and `x.mp4` are different paths here. On a case-insensitive filesystem, `X.mp4` and `x.mp4` are also different paths here. The `dest.exists()` test therefore misses a file reached through such an alias, and the model downloads it again where the script skips it.
- Traversal.RunGuarantees, Traversal.AfterSaveKeeps and Traversal.AfterVideoKeeps: `files` stands for the video files only, and metadata is kept apart in `meta`. The script opens `<dest>.json` with mode 'w' for every video whose file was chosen, including one skipped because `dest` exists. So an existing metadata file is rewritten whatever `--overwrite` says, and "kept" in these contracts covers the video files only.
- The filesystem is a map from paths to contents. A missing file and an empty one behave alike in `download_file`. After an aborted download that left an empty file, the model removes the path. `mkdir` is left out. The metadata JSON is recorded as the video stored under its file's path, not as the serialised text at `<dest>.json`.
- `print`, `tqdm` and all progress output are left out. The folder tree is modelled as a list of lines of a `Line` datatype, and `Tree.LineText` renders each one.
- Listings (`list_project_videos`, `list_all_videos`, `listar_videos_da_pasta`, `listar_videos_sem_pasta`'s input) are inputs to the traversals, each with a flag saying whether its pagination raised. `Pagination` models how a listing is produced.
- `get_video_details` is an input that yields a video or nothing. Its retries are those of `Api.BulkApiGet`.
- A failure of `build_folder_hierarchy` or `montar_mapa_pastas` is left out: the map is an input of the run and of the tree. In the folder script that failure comes before the account line is printed, and `main` prints the error with no tree. Tree.RenderStructure always starts with the account line.
- The download server's answers are a function of the link and the destination path.
- Pagination is modelled over a finite sequence of page outcomes. When that sequence runs out while a next link is pending, the listing ends as `Unfinished`. This is a bound of the model, not behaviour of the scripts.
- `obter_nome_conta` is not part of this model. The account line of the tree is an input.
- argparse, the token from the environment and `bearer_headers` are not part of this model.
- Text.ExtractId and Text.CleanName: their own contracts state the fallback case and the shape of the result. The whole result is stated by Text.ExtractIdSpec and Text.CleanNameSpec.
- Pagination.FollowLink: the contract does not say which of the two forms is taken. Pagination.RelativeAndAbsoluteAgree shows that an absolute link and its relative form lead to the same url.
- Tree.LineText: the contract states how each line starts or ends, not the connector between prefix and label.
- Tree.RenderStructure: its own contract states the account line and the failing listing. The whole printout is stated through Tree.PrintStructure and the `…Keeps` lemmas.
- Traversal.FolderDirName and Traversal.DestName: the contracts state the characters of the names, not which name is chosen. The choice follows Traversal.VideoName and Text.SafeFilename.
- Tree.GroupLines: the contract states only the number of lines. Their content follows from Tree.LabelSpec and Tree.ChildPrefix.
- Traversal.AfterFolder, Traversal.AfterFolders, Traversal.AfterVideo, Traversal.AfterVideos, Traversal.AfterSweep and Traversal.AfterSave: their own contracts state only what grows or stays. The invariants of the run are in the `…Keeps` lemmas beside them.
- Traversal.RunGuarantees: folder visits are guarded by the visited set, which makes cyclic parent data terminate. The model does not record the order of folder visits, so "each folder at most once" is shown by termination and by the guard, not stated as a list property.
