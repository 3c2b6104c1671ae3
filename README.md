# RFetcher fetcher core in Dafny

This project models the data-handling core of RFetcher's `fetcher.py`, a
script that collects posts and comment threads from a subreddit and stores
them as JSON. It proves properties of that model. There are five parts, and
each has its own module:

- **Keywords**: `contains_keywords`, the case-insensitive keyword test.
  `is_reddit_related` is taken as a parameter (`RelatedTest`).
- **CommentTree**: `process_comment` and `count_replies`. The first turns a
  raw comment thread into a filtered tree of the same shape. The second
  counts the nodes below a kept comment.
- **Scraper**: `scrape_subreddit`, the pagination loop. It sends requests
  for pages of posts, passes over stickied posts, applies the unwanted and
  wanted filters, builds the comment forest of each admitted post and
  stops at `limit`, at a failed fetch or at an empty page. The upstream is
  a finite sequence of page results, one per request; `None` is a fetch
  that raised.
- **Json** and **MergeStore**: the JSON documents `main` builds, and
  `save_data`, which merges new data into an existing file in append mode
  and otherwise writes the data as it is.
- **CategoryFile**: the line parser of `load_category_keywords` and the
  file format of `save_category_keywords`. A save followed by a load gives
  back the same categories, in the same order, when every name is one the
  format can carry (not empty, stripped, no colon, no leading `#`, no line
  break) and every keyword is non-empty, stripped and free of commas and
  line breaks. Names the category editor accepts can break this (see
  "## Findings").

Three modules provide the Python built-ins the core relies on:

- **Text**: `str.lower`, `str.strip`, `str.split`, `str.join` and the
  substring test.
- **OrderedMaps**: a `dict` as an insertion-ordered list of entries;
  assignment replaces a value in place or adds the key at the end.
- **Wrappers**: `Option`.

The methods follow the source's loops:

- `ProcessComment` and `CountReplies`
- `CollectComments`, `ProcessBatch` and `ScrapeSubreddit` (through
  `FetchLoop`)
- `MergeDicts` and `SaveData`
- `LoadCategoryKeywords` and `SaveCategoryKeywords`

Each method is proved against a specification function. The properties of
those functions are proved as lemmas.

`save_data` opens the file with `'w'` and then calls `json.dump`
(fetcher.py:484-485). A failure inside `json.dump` therefore leaves a
truncated file, which the model calls `Damaged`. A failure of `open` itself
leaves the old file as it was (`Untouched`).

## Model

| member | source | states |
|---|---|---|
| Keywords.ContainsKeywords | fetcher.py:50-55 | false for an empty keyword list; otherwise true exactly when some keyword, lower-cased, is a substring of the lower-cased text |
| Keywords.AnyKeywordInMeaning | fetcher.py:55 | the `any(...)` scan over the keywords is true exactly when some lower-cased keyword occurs in the text |
| Keywords.ContainsKeywordsIgnoresCase | fetcher.py:148-155 | lower-casing the post text before the test, as the loop does, changes no outcome |
| Keywords.ContainsKeywordsAppend | fetcher.py:55 | a keyword list split in two matches exactly when one of its parts matches |
| CommentTree.Process | fetcher.py:57-82 | `None` exactly for a placeholder, a self-referential body, or a body with an unwanted keyword (only when the unwanted list is non-empty); a kept node copies id, author (`"None"` for a deleted author), body, score and time |
| CommentTree.ProcessComment | fetcher.py:57-82 | the recursive method with its reply loop computes `Process` |
| CommentTree.ProcessRepliesAppend | fetcher.py:77-80 | processing the replies piecewise gives the concatenation of the pieces' results |
| CommentTree.RejectedReplyVanishes | fetcher.py:59-64 | a rejected reply disappears with its whole subtree, even when its descendants would pass every test; the kept replies are those before and after it |
| CommentTree.KeptRepliesExact | fetcher.py:77-80 | the output replies are exactly the non-`None` results of the input replies: the j-th output comes from the j-th kept input, the kept indices increase, and an input is kept exactly when processing it does not give `None` |
| CommentTree.ProcessedTreeClean | fetcher.py:57-82 | every node of a kept tree is a real comment whose body passes both tests |
| CommentTree.ProcessedForestClean | fetcher.py:77-80 | every node of the kept replies passes both tests |
| CommentTree.CountReplies | fetcher.py:207-213 | the count is the number of nodes of the tree minus the root |
| CommentTree.AuthorName | fetcher.py:69 | `str(author)`: the account name, or `"None"` for a deleted author |
| OrderedMaps.PutGet | fetcher.py:228 | after `d[k] = v`, `k` maps to `v` and every other key keeps its value |
| OrderedMaps.PutKeys | fetcher.py:468 | assignment keeps a present key in its position and adds a new key at the end |
| OrderedMaps.PutUnique | fetcher.py:228 | assignment never duplicates a key |
| Text.Lower | fetcher.py:54 | lower-casing keeps the length, maps each character by itself, and leaves no capital letter |
| Text.Strip | fetcher.py:222 | the result has no whitespace at either end (that it is one contiguous run of the line is `StripIsSlice`) |
| Text.StripIsSlice | fetcher.py:222 | `strip` keeps one contiguous run of the line and removes only whitespace at either end |
| Text.SplitOnce | fetcher.py:224-225 | `split(':', 1)` has one part exactly when there is no colon; otherwise the text before the first colon (which holds none) and the rest |
| Text.SplitOn | fetcher.py:227 | `split(',')` gives at least one piece, no piece contains a comma, and joining the pieces with commas gives back the text |
| Text.SplitJoin | fetcher.py:240 | splitting a comma-joined list of comma-free pieces gives back the pieces |
| Scraper.ListingFor | fetcher.py:113-122 | `new`, `top` and `rising` select their listings; every other post type selects `hot` |
| Scraper.Classify | fetcher.py:144-158 | a post is passed over exactly when stickied; it is skipped as unwanted exactly when it is not stickied and matches an unwanted keyword; it is admitted exactly when it is not stickied, matches no unwanted keyword and matches a wanted one if any are given |
| Scraper.BuildPost | fetcher.py:161-194 | the record copies id, title, author (`"None"` for a deleted author), body, score, url, time and comment count; it holds at most one kept tree per top-level comment processed, and every stored comment passes both comment tests |
| Scraper.ClassifyFacts | fetcher.py:141-158 | a stickied post is passed over; an unwanted match skips before the wanted test runs; an empty wanted list skips nothing; a post is admitted exactly when it is not stickied, matches no unwanted keyword and, if wanted keywords are given, matches one |
| Scraper.VerdictsPartition | fetcher.py:141-158 | every post looked at is exactly one of stickied, skipped, or admitted |
| Scraper.SelectedAppend | fetcher.py:141-188 | the admitted posts of consecutive runs of posts are concatenated in page order |
| Scraper.SelectedSound | fetcher.py:151-158 | every admitted post is a post that was looked at and passes both filters |
| Scraper.CollectComments | fetcher.py:173-194 | the kept comment trees of the top-level comments before any failure; `total_comments` is the number of nodes in them; kept plus skipped top-level comments is the number processed |
| Scraper.ProcessBatch | fetcher.py:141-200 | one page's inner loop: the collected records are those of the admitted posts among those looked at, in order; `processed` and `skipped` grow by the posts looked at and the filtered ones; it stops before the end of the page only when the collection reaches `limit`, and reaching `limit` happens right after an admitted post |
| Scraper.LoopStart | fetcher.py:96-99 | the loop invariant holds with nothing collected, no request, no cursor |
| Scraper.NextRequest | fetcher.py:102-109 | the next request asks `min(100, limit - collected)` posts, at least 1, after the cursor when it is set and non-empty |
| Scraper.LoopStep | fetcher.py:102-200 | one pass over a non-empty page keeps the loop invariant, the cursor becoming the page's last post, stickied or not |
| Scraper.LoopStopsOnPage | fetcher.py:123-136 | a failed fetch or an empty page ends the loop and keeps everything collected so far |
| Scraper.LoopReachesLimit | fetcher.py:102 | leaving the loop because `limit` is reached ends the run with its promises met |
| Scraper.StopPointUnique | fetcher.py:199-200 | the posts looked at when `limit` is reached are determined: two runs of posts taken from the same delivery, each ending in an admitted post and admitting equally many, are the same run |
| Scraper.FetchLoop | fetcher.py:96-200 | the `while` loop over the page results meets `Finished`, which includes that a run stopped by `limit` stops right after the admitted post that reached it |
| Scraper.ScrapeSubreddit | fetcher.py:84-205 | a failed probe or `limit <= 0` sends no request and returns nothing; at most `limit` posts; every request is the specified one and asks 1 to 100 posts; only the last request may meet a page that stops the loop; the result is the records of the admitted posts among those looked at, in order; `total_processed == stickied + skipped + len(result)`; fewer than `limit` posts only when the last page stopped the loop after all delivered posts were looked at; reaching `limit` stops right after the admitted post that reached it, so no later post is counted |
| Json.CommentJson | fetcher.py:67-74 | a comment becomes a dict with the keys `id`, `author`, `body`, `score`, `created_utc`, `replies`, in that order |
| Json.PostJson | fetcher.py:161-171 | a post becomes a dict with the keys `id`, `title`, `author`, `selftext`, `score`, `url`, `created_utc`, `num_comments`, `comments`, in that order |
| Json.MultiCategoryLookup | fetcher.py:612-621 | in the multi-category document each category holds its tagged posts, the last run of a category winning |
| Json.TagPost | fetcher.py:619-620 | a tagged post holds its category under "category", added after its other keys |
| Json.SingleCategoryPayload | fetcher.py:605-608 | the single-category run is the dict with the keys `category` and `posts`, in that order |
| Json.MultiCategoryFieldsShape | fetcher.py:612-621 | the multi-category document holds a list under every key and no category twice |
| MergeStore.ExtendItems | fetcher.py:468 | `extend` accepts a list (its items), a string (its characters) or a dict (its keys), and raises on anything else |
| MergeStore.SetDefaultExtend | fetcher.py:468 | one merge step succeeds exactly when the step is possible, and then the key holds its old list (empty if new) followed by the new items |
| MergeStore.MergeDicts | fetcher.py:466-469 | the merge loop computes `MergeFields` |
| MergeStore.MergeFields | fetcher.py:466-468 | whatever the data, a successful dict merge keeps the old keys first, in their order |
| MergeStore.MergeFieldsFails | fetcher.py:466-468 | the dict merge fails exactly when some entry of the data meets a non-list value or brings a value that cannot be iterated |
| MergeStore.MergeFieldsUnique | fetcher.py:466-469 | a successful dict merge leaves no duplicate key |
| MergeStore.MergeFieldsKeys | fetcher.py:467-468 | old keys keep their order and the data's new keys follow, in the data's order |
| MergeStore.MergeFieldsValues | fetcher.py:467-468 | each key of the data holds its old list (or `[]`) followed by the new items |
| MergeStore.MergeFieldsOthers | fetcher.py:466-469 | keys the data does not mention are unchanged |
| MergeStore.ListsConcatenate | fetcher.py:470-472 | list onto list: the old items, then the new ones |
| MergeStore.PostsExtended | fetcher.py:473-475 | a list onto a document with a "posts" list extends "posts"; every other key and the key order stay |
| MergeStore.PostsNotList | fetcher.py:473-474 | a "posts" value that is not a list raises |
| MergeStore.Reconcile | fetcher.py:466-479 | the new data is written unmerged exactly when the shapes are not two dicts, not two lists, and not a dict holding "posts" with a list; the merge raises exactly when the dict merge fails or a list meets a "posts" value that is not a list |
| MergeStore.AppendNothing | fetcher.py:470-475 | appending `[]` onto a list or a posts document leaves it unchanged |
| MergeStore.SaveData | fetcher.py:456-491 | a failed `makedirs` writes nothing; no existing file or overwrite mode writes the data verbatim; a read error or a raising merge writes nothing; a merge writes the merged document; a mismatch writes the data; a failed `open` leaves the file untouched, a failed `json.dump` leaves it damaged; true exactly when the open and the dump succeed, and then the file holds the written document |
| MergeStore.WriteOut | fetcher.py:484-491 | the final write: true exactly when `open` and `json.dump` both succeed; a failed `open` leaves the old file, a failed dump leaves a truncated one |
| MergeStore.SingleCategoryAppendRaises | fetcher.py:605-608 | appending a single-category run onto a single-category file raises (the "category" string cannot be extended), so nothing is written |
| MergeStore.SingleCategoryOntoPostsFile | fetcher.py:605-608 | appending a single-category run onto a posts file makes "category" the list of the name's characters and extends "posts" |
| MergeStore.CategoryOntoPosts | fetcher.py:466-468 | the dict merge of a string field and a list field: the new key holds the characters, the list key gains the items, the key is added at the end |
| MergeStore.ListDictsAppend | fetcher.py:466-469 | the dict merge of two dicts of lists succeeds, keeps the keys unique, gives each key of the data its old list followed by the new items, and leaves the other keys as they were |
| MergeStore.MultiCategoryAppend | fetcher.py:612-628 | appending a multi-category run onto a dict of lists succeeds, and each category fetched holds its old posts followed by the tagged posts of its last run |
| MergeStore.MultiCategoryAppendOthers | fetcher.py:612-628 | categories the run did not fetch keep their old posts |
| MergeStore.NoCategoryOntoPostsFile | fetcher.py:638 | appending a run without categories onto a file holding a "posts" list extends "posts" with the new posts and keeps the keys and their order |
| CategoryFile.KeepKeywords | fetcher.py:227 | the kept keywords are non-empty and stripped, at most one per piece |
| CategoryFile.KeepKeywordsOne | fetcher.py:227 | one piece gives its stripped text when that is non-empty, and nothing otherwise |
| CategoryFile.KeepKeywordsAppend | fetcher.py:227 | the pieces are kept one after the other: the result for a concatenation is the concatenation of the results, so piece order is kept |
| CategoryFile.KeepKeywordsMembers | fetcher.py:227 | a keyword is kept exactly when it is non-empty and is the stripped form of some piece |
| CategoryFile.ParseKeywordsAreKeywords | fetcher.py:227 | every keyword of a line is non-empty, stripped and comma-free |
| CategoryFile.ParseLine | fetcher.py:222-228 | a line yields nothing exactly when it is blank after stripping, starts with `#` after stripping, or has no colon; otherwise the stripped line is some colon-free text, a colon and a rest, and the entry is that text stripped with the keywords parsed from the rest |
| CategoryFile.ParseLineSplit | fetcher.py:222-228 | for any split of a non-comment stripped line at its first colon, the entry is the text before the colon stripped (`Tech : py` gives `Tech`, `: py` gives the empty name) and the keywords parsed from the text after it |
| CategoryFile.ParseLineMeaning | fetcher.py:222-227 | a line is ignored exactly when it is blank after stripping, starts with `#`, or has no colon; otherwise the category name is stripped and colon-free, and every keyword is non-empty, stripped and comma-free |
| CategoryFile.CommentIgnored | fetcher.py:222-223 | any line that strips to text starting with `#` is not a category line and leaves the dict as it was |
| CategoryFile.IndentedComment | fetcher.py:222-223 | a `#` line indented by whitespace is still a comment |
| CategoryFile.AssignGet | fetcher.py:228 | a category line sets its category's keywords; other categories keep theirs |
| CategoryFile.AssignUnique | fetcher.py:228 | a line never duplicates a category |
| CategoryFile.ParseFromLookup | fetcher.py:221-228 | after loading, a category holds the keywords of the last line that names it |
| CategoryFile.ParseFromUnique | fetcher.py:217-228 | loading yields a dict without duplicate names |
| CategoryFile.ParseFromKeys | fetcher.py:221-228 | later lines never move a category from where its first line put it |
| CategoryFile.ParseFromAppend | fetcher.py:221-228 | parsing two runs of lines in turn is parsing their concatenation |
| CategoryFile.LoadCategoryKeywords | fetcher.py:215-231 | a missing file gives no categories; otherwise the categories parsed from the lines read |
| CategoryFile.Load | fetcher.py:217-228 | the dict loaded from a file never holds a name twice |
| CategoryFile.UniversalNewlines | fetcher.py:220-221 | the text read in text mode holds no `\r`, and text without `\r` is read as it is |
| CategoryFile.UniversalNewlinesPlain | fetcher.py:220-221 | text without `\r` passes through unchanged ahead of whatever follows it |
| CategoryFile.UniversalNewlinesCrLf | fetcher.py:220-221 | each `\r\n` pair is read as one `\n` |
| CategoryFile.UniversalNewlinesCr | fetcher.py:220-221 | each `\r` not followed by `\n` is read as one `\n` |
| CategoryFile.FileLines | fetcher.py:221 | no line visited holds a line break |
| CategoryFile.ReadBack | fetcher.py:221 | lines without line breaks, each written with a newline, are visited exactly as written, one by one, with no extra empty line |
| CategoryFile.BodyEntries | fetcher.py:239-240 | each line written for a category reads back as that category and its keywords |
| CategoryFile.HeaderParsed | fetcher.py:237-238 | the two header comment lines and the blank line are not category lines |
| CategoryFile.SaveCategoryKeywords | fetcher.py:233-242 | the text written is the two header lines, a blank line and one `category: k1, k2` line per category, in dict order |
| CategoryFile.FormatLine | fetcher.py:240 | a saved category line starts with the name followed by `": "` |
| CategoryFile.FileText | fetcher.py:237-240 | a saved file is the two header lines, then a blank line, then the category lines, each ending in a newline |
| CategoryFile.LoadSaved | fetcher.py:215-242 | loading a saved file parses its category lines and nothing else: the header contributes nothing |
| CategoryFile.SaveThenLoad | fetcher.py:215-242 | loading what a save wrote gives back the same categories in the same order, when names and keywords are ones the format can carry |
| CategoryFile.EditorAccepts | fetcher.py:270-271 | a name the editor accepts is non-empty and already stripped, so stripping it on load changes nothing |
| CategoryFile.ColonNameSplits | fetcher.py:222-228 | a saved name holding a colon reads back split at the colon: the text before it becomes the name, the rest joins the keywords |
| CategoryFile.HashNameVanishes | fetcher.py:222-223 | a saved name starting with `#` reads back as a comment: loading gives no category |
| CategoryFile.ColonNameLost | fetcher.py:270-275 | the editor accepts the name `a:b`, and a save and a load do not give it back |
| CategoryFile.HashNameLost | fetcher.py:270-275 | the editor accepts the name `#x`, and a save and a load lose it |

## Left out

- The Reddit client is left out: authentication, the subreddit probe (fetcher.py:88-94) and the listing calls are network calls into a foreign library. The probe becomes the `probeOk` input and the pages become a finite sequence of results.
- A real listing is not finite. With an endless supply of filtered-out posts the real loop never stops; the model cannot express that.
- `time.sleep` (fetcher.py:197, 624) is left out: it only pauses and does not affect the data.
- All `print` output and the terminal menus are left out as user interface: `manage_categories`, `display_menu`, `get_filename_choice`, `get_file_action`, `handle_existing_file`, `get_filename` and `main`'s dialogue. The payloads `main` passes to `save_data` are modelled.
- File I/O is left out. `os.makedirs`, `os.path.exists`, reading the file and the write's success are inputs of `SaveData` and `LoadCategoryKeywords`. JSON text formatting (`indent`, `ensure_ascii`) and `json.load`'s parsing, including its handling of duplicate keys, are left out too. A loaded document is an input.
- On a failed category-file save, the model does not capture a partially written file: `SaveCategoryKeywords` returns the whole text.
- A read error while loading a category file is modelled as the content read up to the error.
- `is_reddit_related` (fetcher.py:40-48) is a parameter: its regular expressions are not modelled.
- `extract_subreddit_name` (fetcher.py:35-38) and `generate_filename` (fetcher.py:445-454) are left out: they are regular-expression and clock helpers outside the core.
- Text.Lower: lower-cases ASCII letters only, because Unicode case mapping is not modelled.
- Text.Strip: removes ASCII whitespace, separator controls and the two Latin-1 spaces only, because the rest of Unicode whitespace is not modelled.
- `replace_more` (fetcher.py:175) is not modelled. Where comment processing fails is the `commentFailure` field of a post.
- JSON numbers are `real` values, and `created_utc` is a `real`.

## Findings

| source | as written | input that shows it | evidently intended | confidence | as-written member | corrected member |
|---|---|---|---|---|---|---|
| fetcher.py:270-275 | the category editor accepts any name that is non-empty after stripping and saves it at once | the name `a:b` reloads as category `a` with a keyword beginning `b: `; the name `#x` reloads as a comment and is gone | a saved category reloads unchanged, so names with a colon or a leading `#` should be refused | not executed | CategoryFile.ColonNameLost | CategoryFile.SaveThenLoad |

`CategoryFile.HashNameLost` shows the second input. `SaveThenLoad` proves that
names the format can carry (`IsName`: no colon, no leading `#`, no line
break) come back unchanged, together with their keywords, in the same order.
