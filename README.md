# Pony Music Archive: a verified model of the archive tools

The Pony Music Archive keeps a large collection of fan-made songs. A few
scripts maintain it, and this project models their decision-making core in
Dafny:

- **autotag.py** walks every artist folder. For each song it reads the
  ffmetadata dump and queues tagging tasks: a missing title comes from the
  file name, and a missing album or artist comes from the most common tag
  in the folder or from the folder's own name. It then puts each task
  through a gate of command-line options and a yes/no question. Finally it
  applies the accepted overlays to its metadata store and hands the new
  records to the tag writer (`AutoTag`, `AutoTagProps`).
- **findbadnames.py** checks every file and folder name of the archive. It
  counts the good names and prints one issue line per bad one, and it
  renames files whose name ends with a dash (`BadNames`). Its Levenshtein
  distance is in `Levenshtein`.
- **diff_song_db.py** compares two song databases: it imports the rows
  keyed by fingerprint, decides whether a pair matched by fingerprint has
  the same title, and lists the artists and songs worth importing
  (`SongDb`).
- **dlcoverart.py** finds, for each local file, the first channel video
  whose title matches it (`CoverArt`).
- Both scripts use the same title canonicalisation, with slightly different
  character sets and prefix lists (`Titles`).
- **scrape.py / scrape_bronytunes.py** are the downloaders. The model covers
  their name sanitising, the prefix removal, the list of useless albums, the
  download URL, the resume id, the 8192-byte corruption threshold and the
  placeholder cover-art test (`Scrape`). The two scripts define
  `sanitize`, `removeExtraPrefixes` and `isUselessAlbum` identically, so
  each is modelled once.
- **chromaprint_matcher/src/matcher.rs** finds the best fingerprint match of
  a song among candidates, with its default window and thresholds
  (`Matcher`).

Shared string operations (Python's `lower`, `find`, `rfind`, `split`,
`strip`, `replace`) are in `Text`. `Wrappers` holds `Option`.

The scripts run worker threads around queues. The model runs them
sequentially, in queue order. Everything that comes from outside is a
parameter:

- directory listings;
- the text the tag reader prints (or its failure);
- the sibling names of a folder;
- the existing-duplicate test of a file;
- the set of matched fingerprints;
- the user's answer to a prompt;
- the downloaded bytes;
- the `location` header of the artwork request.

The tag writer is modelled by the argument lists it would receive.

## Model

| member | source | states |
|---|---|---|
| AutoTag.MakeUpdateObject | autotag.py:56-59 | the overlay keeps the record's path, sets exactly the one named field to the value, and leaves every other field out of the patch |
| AutoTag.ApplyUpdate | autotag.py:61-69 | the result keeps the path; a field whose patch value is non-empty takes that value; every other field keeps the old value |
| AutoTag.SingleFieldUpdate | autotag.py:56-69 | applying a one-field overlay with a non-empty value changes that field and nothing else |
| AutoTag.EmptyValuePatchIsNoOp | autotag.py:56-69 | an overlay setting an empty value leaves the record unchanged (falsy values are skipped) |
| AutoTag.ApplyUpdateIdempotent | autotag.py:61-69 | applying the same overlay twice equals applying it once |
| AutoTag.UnescapeEscapeRoundTrip | autotag.py:159 | for text without backslashes, undoing the `\=` escape after escaping every `=` gives the text back |
| AutoTagProps.UnescapePlain | autotag.py:159 | text without a backslash is unchanged by the unescape |
| AutoTagProps.LineTagSpec | autotag.py:156-159 | a line without `=` carries no tag; otherwise the name is the lower-cased text before the first `=` and the value is the unescaped rest |
| AutoTagProps.KeysCompareLowercased | autotag.py:158 | illustration on one input: `ALBUM=Hi` yields the tag `album` with value `Hi` |
| AutoTag.KeyCount | autotag.py:160-168 | the number of lines carrying a key is at most the number of lines |
| AutoTag.LastOccurrenceWins | autotag.py:155-168 | when line j is the last line with a key, the parsed value is that line's value and the key was seen at least once |
| AutoTag.AbsentKeyIsEmpty | autotag.py:152-154 | with no line for a key, the value stays `''` and its counter does not move |
| AutoTag.ParseFfmetadata | autotag.py:169 | the record is built for the path that was read |
| AutoTag.Tagger.GetMetadata | autotag.py:144-172 | a failed read yields None and no counter changes; otherwise the record holds the last value of each key among the lines of the stripped output, and each counter grows by the number of lines carrying its key |
| AutoTag.Tagger.ScanTagLines | autotag.py:155-168 | the loop over the lines leaves each field at the last value of its key and each counter at the number of lines carrying that key |
| AutoTag.SplitextRoot | autotag.py:206 | the file name starts with the new title |
| AutoTag.SplitextDropsLastExtension | autotag.py:206 | the root of `stem.ext` is `stem` when the extension has no dot and the stem is not all dots |
| AutoTagProps.TitleTaskDropsExtension | autotag.py:205-207 | the title task for `stem.ext` sets the title to `stem` |
| AutoTagProps.TitleTasksSpec | autotag.py:201-207 | exactly one FILE task per readable file without a title; each is simple and patches only the title, and every such file gets one |
| AutoTag.Values | autotag.py:212-219 | one value per record |
| AutoTag.ValuesSpec | autotag.py:212-219 | value i is field f of record i |
| AutoTag.Missing | autotag.py:211-215 | no more records than given |
| AutoTag.MissingMembers | autotag.py:211-215 | the records lacking a tag are exactly those with an empty field |
| AutoTag.Distinct | autotag.py:216-219 | no more keys than values |
| AutoTag.DistinctMembers | autotag.py:216-219 | the dictionary's keys are exactly the non-empty values, each listed once |
| AutoTag.OccurrencesPositive | autotag.py:216-219 | a value is counted at least once exactly when it occurs |
| AutoTag.CountsMembers | autotag.py:216-219 | the dictionary maps exactly the non-empty values, each to its number of occurrences |
| AutoTag.Tagger.CountValue | autotag.py:216-219 | one step of the tally loop keeps keys and counts equal to those of the values seen so far |
| AutoTag.Tagger.Tally | autotag.py:210-219 | the loop returns the dictionary's keys in insertion order, their counts, and the records lacking the tag |
| AutoTag.TopKey | autotag.py:222-224 | the chosen key is one of the keys |
| AutoTag.TopKeySpec | autotag.py:222-224 | the chosen key has the highest count, and it is the first key in insertion order with that count |
| AutoTag.TopKeyMax | autotag.py:222 | no key has a higher count than the chosen one |
| AutoTag.TopKeyFirst | autotag.py:222 | every key before the chosen one has a strictly lower count (`sorted` is stable) |
| AutoTag.MostCommon | autotag.py:222-224 | the choice is a non-empty value that occurs at least as often as any other |
| AutoTagProps.MostCommonFirstSeen | autotag.py:222-224 | the most common value is the first to reach the top count in order of first appearance |
| AutoTagProps.ChosenKeyFirst | autotag.py:222-224 | all keys inserted before the chosen one have lower counts |
| AutoTagProps.ManyKeysIffTwoValues | autotag.py:225 | more than one key iff two different non-empty values occur |
| AutoTag.Updates | autotag.py:232 | one album overlay per record lacking the tag, in order |
| AutoTagProps.AlbumTaskEmitted | autotag.py:220 | an album task is queued iff some record lacks the album and the folder is below the artist root |
| AutoTagProps.AlbumTaskPatches | autotag.py:220-233 | the album task is a FOLDER task holding one overlay per untagged record, in scan order, all with the chosen value |
| AutoTagProps.AlbumFromTags | autotag.py:222-226 | when some record has an album, the most common one is proposed, and the decision is complex iff two albums occur |
| AutoTagProps.AlbumFromFolder | autotag.py:227-230 | with no album tag, the folder path with `/` turned into ` - ` is proposed; complex iff nested or named `Instrumentals` or `A capellas` |
| AutoTagProps.UntiedTwoAlbumsAreComplex | autotag.py:220-226 | illustration on one folder: albums x, y, y and one untagged file propose y as a complex decision |
| AutoTagProps.ArtistTaskEmitted | autotag.py:246 | an artist task is queued iff some record lacks the artist, at any depth |
| AutoTagProps.ArtistTaskPatches | autotag.py:246-258 | the artist task is a FOLDER task with one overlay per untagged record, all with the chosen value |
| AutoTagProps.ArtistChoiceSpec | autotag.py:248-255 | the most common artist tag is proposed, or the artist folder's name when there is none; complex iff two artists occur and the choice is not the folder's artist |
| AutoTag.ScanCountsFiles | autotag.py:194-200 | the scan reads exactly the regular files of the folder |
| AutoTagProps.ScanReadable | autotag.py:201-204 | at most one record per regular file, and one for each iff every read succeeds |
| AutoTag.Tagger.ProcessEntry | autotag.py:195-207 | one directory entry: counts a regular file, reads it, and queues a title task when the record has no title |
| AutoTag.Tagger.ScanFolder | autotag.py:192-207 | the scan loop returns the readable records in order, queues their title tasks and bumps the song and tag counters |
| AutoTag.Tagger.QueueAlbumTask | autotag.py:209-233 | queues the album task exactly when it is emitted, registering the folder's records |
| AutoTag.Tagger.QueueArtistTask | autotag.py:235-258 | queues the artist task exactly when it is emitted, registering the folder's records |
| AutoTag.Tagger.QueueFolderTasks | autotag.py:209-258 | the album task then the artist task, registering the records once per queued task |
| AutoTag.Tagger.ProcessFolder | autotag.py:186-260 | the tasks queued are the folder's title tasks then its folder tasks; the store gains the registered records; counters grow by the files and the tag lines seen |
| AutoTagProps.FolderTasksNonEmpty | autotag.py:284-287 | every task a folder queues patches at least one record, so by `AutoTagProps.GateSpec` the empty-task branch is never taken on the scanner's tasks |
| AutoTag.RegisterSpec | autotag.py:174-184 | registration never overwrites a stored record, registers every given path, and adds only records that were given |
| AutoTag.Tagger.QueueFileTagJob | autotag.py:174-178 | registers the record if absent and queues one FILE task with one overlay |
| AutoTag.Tagger.QueueFolderTagJob | autotag.py:180-184 | registers every record if absent and queues one FOLDER task with the given overlays |
| AutoTag.Tagger.constructor | autotag.py:20-32 | the run starts with an empty store, an empty queue, no written command and zero counters |
| AutoTag.WriterCommand | autotag.py:119-137 | a command exists iff the path ends in `.mp3` or `.flac`, and it names the file right after the tool |
| AutoTag.ApplyAll | autotag.py:277-282 | the store keeps its paths; at most one command per overlay; an exception is raised iff some overlay's file has an unsupported type |
| AutoTag.ApplyAllKeepsPaths | autotag.py:277-282 | every stored record keeps its own path as key |
| AutoTag.ApplyAllPrefixRaised | autotag.py:277-282 | once an exception is raised, later overlays change nothing |
| AutoTag.ApplyAllLeavesOtherPaths | autotag.py:277-282 | a record no overlay names is unchanged |
| AutoTag.FoldUpdates | autotag.py:277-281 | overlays applied in order keep the path; a field no overlay sets keeps its value, and the last overlay's non-empty field wins |
| AutoTag.ApplyOnOnePath | autotag.py:277-282 | any overlays on one mp3 or flac file never raise, make one writer call each, and leave the record as their fold over the original |
| AutoTag.Tagger.ApplyUpdates | autotag.py:277-282 | the loop leaves the store, the written commands and the raised flag as the overlay sequence prescribes |
| AutoTag.Prompt | autotag.py:294-298 | the prompt starts with `Update ` and ends with the description and `?` |
| AutoTagProps.PromptSpec | autotag.py:294-307 | the user is asked exactly when the prompt is shown outside a dry run; an applied task whose prompt was shown was answered yes |
| AutoTagProps.GateSpec | autotag.py:284-314 | each outcome in both directions: an empty task errs, a complex task under `--no-complex` is skipped, a refused prompt declines, a dry run reports only, and everything else is applied |
| AutoTagProps.DryRunNeverApplies | autotag.py:308-311 | with `--do-nothing` no task is applied |
| AutoTagProps.QuietDryRunApplies | autotag.py:308-314 | as written, a dry run with `--quiet` skips the prompt and applies it |
| AutoTagProps.GatesAgreeOutsideQuietDryRun | autotag.py:308-314 | the written gate and the intended gate differ only on a quiet dry run of a task that is not skipped |
| AutoTagProps.SimpleTasksAutoApplied | autotag.py:303 | with `--auto-apply-simple`, a simple task is applied without asking |
| AutoTag.Tagger.ProcessTaggingTask | autotag.py:284-314 | takes the oldest task; the outcome is the corrected gate's, and differs from the written gate's only on a quiet dry run, which the written code applies; only an applied task changes the store and the written commands, exactly as its overlays prescribe |
| BadNames.PathBaseSpec | findbadnames.py:154 | the base name of `dir/name` is `name` |
| BadNames.NameAudit.ShowError | findbadnames.py:89-93 | counts one bad name, prints one issue line, and answers False |
| BadNames.NameAudit.constructor | findbadnames.py:19-20 | both counters start at zero |
| BadNames.CommonCheckPassed | findbadnames.py:95-105 | a name passing the common checks has no forbidden character and no leading dot or leading or trailing blank |
| BadNames.NameAudit.CommonChecks | findbadnames.py:95-105 | passes iff no common check fires, and prints the first failing one |
| BadNames.FolderDupe | findbadnames.py:72-84 | a found duplicate is reported as `duplicate_folder_reduced_name` |
| BadNames.FolderDupeFound | findbadnames.py:72-84 | a duplicate is reported iff some sibling has the same name once spaces and dots are removed and case is ignored |
| BadNames.FolderDupeFirst | findbadnames.py:77-84 | the report names the first such sibling |
| BadNames.ReducedIgnores | findbadnames.py:75 | a space or dot anywhere does not change the reduced name |
| BadNames.CheckFolderDupesAsWritten | findbadnames.py:72-87 | as written, the check always answers True and reports nothing |
| BadNames.DuplicateFolderMissed | findbadnames.py:84-87 | folders `a b` and `ab` are duplicates, but the written check lets them through |
| BadNames.FolderCheckAsWritten | findbadnames.py:107-114 | the written folder checks never report a duplicate, and any folder they fail the intended checks fail with the same report |
| BadNames.FolderRulesDiffer | findbadnames.py:72-114 | the written and the intended folder checks differ exactly on a folder that passes the first three tests and has a sibling with the same reduced name |
| BadNames.NameAudit.CheckFolderDupes | findbadnames.py:72-87 | the intended check passes iff there is no duplicate, and reports the first one |
| BadNames.NameAudit.FolderChecks | findbadnames.py:107-114 | passes iff no folder check fires, and prints the first failing one |
| BadNames.FileCheckPassed | findbadnames.py:116-148 | a file passing the file checks has an audio extension, no trailing dash and no unbracketed featured artist |
| BadNames.NameAudit.CheckFeats | findbadnames.py:145-147 | fails iff the lower-cased name holds ` - ft. `, ` - ft `, ` - feat. ` or ` - feat ` |
| BadNames.DashDropped | findbadnames.py:130-133 | with no other dash, the new name drops every dash and keeps every other character |
| BadNames.DashToBrackets | findbadnames.py:134-139 | with exactly two dashes, the text between them is put in brackets and the rest is kept |
| BadNames.DashPositions | findbadnames.py:134-137 | with two dashes, `find` and `rfind` locate the first and the last one |
| BadNames.NameAudit.RenameDashed | findbadnames.py:128-139 | records the rename the dash rule prescribes, and no other |
| BadNames.NameAudit.FileChecks | findbadnames.py:116-148 | a known duplicate fails silently; otherwise passes iff no file check fires, and prints the first failing one and any dash rename |
| BadNames.EntryReports | findbadnames.py:157-167 | at most one issue per name |
| BadNames.EntryCountedOnce | findbadnames.py:157-167 | each name is counted good or reported exactly once, except a known duplicate file, which is neither |
| BadNames.GoodNameShape | findbadnames.py:157-167 | a good name has no forbidden character or stray blank; a good file has an audio extension, no trailing dash and no unbracketed featured artist |
| BadNames.NameAudit.CheckEntry | findbadnames.py:152-167 | one name: good count, issue lines and renames grow as its checks prescribe |
| BadNames.NameAudit.CheckTree | findbadnames.py:150-167 | the walk: counts, issues and renames are those of every name in order |
| BadNames.CheckedTotal | findbadnames.py:169 | the printed total of checked names is the number of names minus the silently skipped duplicates |
| BadNames.NoDupesAllCounted | findbadnames.py:169 | without known duplicate files the printed total is the number of names |
| Levenshtein.Min3 | findbadnames.py:34-44 | the minimum is one of the three and at most each |
| Levenshtein.InitMatrix | findbadnames.py:23-29 | the first row and column hold their index |
| Levenshtein.FillRow | findbadnames.py:31-44 | filling row x makes every cell of rows up to x the edit distance of the prefixes |
| Levenshtein.ComputeLevenshtein | findbadnames.py:22-45 | returns the edit distance of the two names |
| Levenshtein.EditDistanceProperties | findbadnames.py:22-45 | the distance is zero to itself, the length against the empty name, symmetric, at most the longer length, at least the length difference |
| Levenshtein.DistSymmetric | findbadnames.py:31-44 | the recurrence is symmetric in its arguments |
| Levenshtein.OneSubstitution | findbadnames.py:64 | names differing in one position are below the misspelling threshold of 2 |
| Titles.RemoveParens | diff_song_db.py:88-103 | the loop computes the bracket-free title, stripped |
| Titles.FoldDepth | diff_song_db.py:92-100 | the running depth is the number of opening minus closing brackets so far |
| Titles.ParensRemovedWellNested | diff_song_db.py:88-103 | on a well-nested title, the result is the text outside every bracket group |
| Titles.UnclosedTailDropped | diff_song_db.py:101-102 | an unclosed final group drops the whole tail from its opening bracket |
| Titles.ParensRemovedChars | diff_song_db.py:88-103 | the result only holds characters of the title |
| Titles.CharsetsDiffer | dlcoverart.py:48 | the cover-art set lacks the database set's `.`, `【` and `】` |
| Titles.SimplifiedSpec | diff_song_db.py:105-110 | each character in the set becomes a space; every other character is kept in place |
| Titles.SimplifiedShape | diff_song_db.py:105-110 | same length, no character of the set is left, and nothing new but spaces appears |
| Titles.SimplifyCharset | diff_song_db.py:105-110 | the replacement loop yields the simplified title |
| Titles.RemovePrefixes | diff_song_db.py:112-117 | the result is a suffix of the title |
| Titles.RemovePrefixesNone | diff_song_db.py:112-117 | a title with none of the prefixes is unchanged |
| Titles.RemovePrefixesFirst | diff_song_db.py:112-117 | the first matching prefix is removed, once |
| Titles.DashedPrefixNeverFires | diff_song_db.py:127-131 | `mlp-fim` cannot match after the dash was turned into a space, so only `mlp fim` can, and the cover-art list never does |
| Titles.RemoveFeatsFrom | diff_song_db.py:119-125 | the result is a prefix of the fragment |
| Titles.RemoveFeatsNone | diff_song_db.py:119-125 | a fragment without any spaced marker is unchanged |
| Titles.RemoveFeatsFirst | diff_song_db.py:119-125 | the fragment is cut at the first occurrence of the first marker in the list that occurs |
| Titles.RemoveFeatsClean | diff_song_db.py:119-125 | the cut fragment holds neither that marker nor any earlier one |
| Titles.DropApostrophesOnlyDropsApostrophes | diff_song_db.py:128 | the contraction rewrite only removes apostrophes |
| Titles.ApostropheExamples | diff_song_db.py:128 | illustration on three inputs: `it's` becomes `its`; `can't` and a quote after a space are kept |
| Titles.CollapseSpec | diff_song_db.py:132 | no two blanks in a row, nothing new but spaces, and the last character is blank iff it was |
| Titles.StripCollapsed | diff_song_db.py:132 | the canonical tail has no blank at either end and no two blanks in a row |
| Titles.CanonicalSongDbShape | diff_song_db.py:127-132 | a canonical title has no capital letter, no character of the set, no blank at either end and no double blank |
| Titles.CanonicalCoverArtShape | dlcoverart.py:61-65 | the same shape for the cover-art character set |
| Titles.CanonicalPrefixes | diff_song_db.py:127-131 | at the prefix stage of either canonical form, `mlp-fim` never matches: the database form can only strip `mlp fim`, and the cover-art form strips nothing |
| Titles.SearchFragments | diff_song_db.py:170-176 | the search loop finds a fragment iff some fragment canonicalises to the target |
| SongDb.ProcessFingerprintMatch | diff_song_db.py:165-178 | merges iff the titles are equal or some fragment of the source title canonicalises to the target's canonical title |
| SongDb.CanonicallyEqualTitlesMerge | diff_song_db.py:165-178 | titles with the same canonical form and no featured marker are merged |
| SongDb.PieceMatchMerges | diff_song_db.py:168-173 | an `artist - title` source merges with a target titled by one of its pieces |
| SongDb.FirstSeenSpec | diff_song_db.py:68-75 | the dictionary's keys are exactly the inserted ones, each once |
| SongDb.TableKeys | diff_song_db.py:68-75 | the dictionary holds exactly the fingerprints of the rows |
| SongDb.TableLastWins | diff_song_db.py:75 | the song kept for a fingerprint is the last row carrying it |
| SongDb.ImportRow | diff_song_db.py:71-75 | one row keeps dictionary, key order and duplicate count equal to those of the rows so far |
| SongDb.ImportSongs | diff_song_db.py:61-80 | the import yields the table, keys in first-seen order, and a duplicate count of rows minus distinct fingerprints |
| SongDb.ImportedOrderIsKeys | diff_song_db.py:61-80 | the key order lists each imported fingerprint exactly once |
| SongDb.NoRepeatedPrintsNoDuplicates | diff_song_db.py:72-73 | rows with pairwise different fingerprints are all kept, in order |
| SongDb.GroupsSpec | diff_song_db.py:215-220 | every artist of the songs has a group holding exactly its songs in order, and no other artist has one |
| SongDb.SongsBySpec | diff_song_db.py:215-220 | an artist's group holds exactly the songs with that artist |
| SongDb.GroupSong | diff_song_db.py:216-220 | one song keeps the artist order and the groups equal to those of the songs so far |
| SongDb.GroupByArtist | diff_song_db.py:215-220 | artists come in first-seen order, with their groups |
| SongDb.AnyMatched | diff_song_db.py:225-227 | the inner loop breaks iff some song of the group was matched |
| SongDb.WithoutMatchesSpec | diff_song_db.py:222-230 | an artist is listed iff none of its songs was matched |
| SongDb.ArtistsWithoutMatches | diff_song_db.py:222-230 | the loop lists exactly those artists, in order |
| SongDb.UnmatchedSpec | diff_song_db.py:238-240 | the reported songs of a group are exactly its unmatched ones |
| SongDb.ToImportSpec | diff_song_db.py:234-240 | a song is reported iff its artist is not listed without matches and the song is unmatched |
| SongDb.UnmatchedToImport | diff_song_db.py:234-240 | the final loop reports exactly those songs |
| SongDb.WithoutMatchesInSpec | diff_song_db.py:215-230 | over the source songs: an artist is listed iff it has songs and none matched |
| SongDb.ToImportInSpec | diff_song_db.py:215-240 | over the source songs: a song is reported iff it is unmatched and its artist has a matched song |
| SongDb.GroupedArtists | diff_song_db.py:215-224 | every listed artist has a group |
| CoverArt.ParseVideoLineSpec | dlcoverart.py:142-148 | a line yields a video iff it holds a space; the id is the text before the first space and the title the rest |
| CoverArt.VideosFromLines | dlcoverart.py:141-148 | every video comes from some line |
| CoverArt.LinesGiveVideos | dlcoverart.py:141-148 | every line holding a space gives a video |
| CoverArt.ParseVideoList | dlcoverart.py:139-148 | the loop yields the videos of the output's lines, in order |
| CoverArt.MakeLocalFile | dlcoverart.py:159-166 | with `fileName` standing for the path's base name: the name is cut before its last dot only (kept whole without a dot), and the title compared is the canonical form of that name |
| CoverArt.FindMatch | dlcoverart.py:122-130 | returns the first video one of whose fragments canonicalises to the file's canonical title, or None if no video has one |
| CoverArt.SameCanonicalTitleMatches | dlcoverart.py:122-129 | a video with the file's canonical title and no featured marker matches |
| CoverArt.TildePieceMatches | dlcoverart.py:124 | a video matches through a `~` piece of its title |
| Matcher.DefaultParams | chromaprint_matcher/src/matcher.rs:4-22 | the defaults are a window of 5 and both thresholds 0.98 |
| Matcher.PopCount | chromaprint_matcher/src/matcher.rs:36 | at most 32 bits are set |
| Matcher.ErrorUpTo | chromaprint_matcher/src/matcher.rs:35-37 | at most 32 differing bits per compared word |
| Matcher.MinLen | chromaprint_matcher/src/matcher.rs:38 | the divisor is at least 1 |
| Matcher.ScoreBounds | chromaprint_matcher/src/matcher.rs:34-39 | the score lies in [0, 1] and is 1 iff no bit differs |
| Matcher.SamePrintScoresOne | chromaprint_matcher/src/matcher.rs:34-39 | identical prints score 1 |
| Matcher.ComputeError | chromaprint_matcher/src/matcher.rs:34-37 | the zip loop counts the differing bits over the shorter print |
| Matcher.ComputeScore | chromaprint_matcher/src/matcher.rs:34-39 | the score is one minus the error per 32-bit word |
| Matcher.FindFingerprintMatch | chromaprint_matcher/src/matcher.rs:25-49 | if any candidate in the duration window reaches the immediate threshold, returns the first such one; otherwise the earliest best one at the partial threshold and above 0; otherwise none with score 0 |
| Matcher.SelectionDeterminate | chromaprint_matcher/src/matcher.rs:40-45 | the first immediate candidate and the best partial candidate are each unique, so the contract above fixes the index returned |
| Matcher.DefaultsNeverPartial | chromaprint_matcher/src/matcher.rs:4-6 | with the default thresholds every partial match is immediate |
| Scrape.Sanitize | scrape.py:76-77 | never longer than the name |
| Scrape.SanitizeSpec | scrape.py:76-77 | the result holds exactly the name's characters other than `/`, `\` and `:` |
| Scrape.SanitizeConcat | scrape.py:76-77 | sanitising works character by character |
| Scrape.SanitizeIdempotent | scrape.py:76-77 | sanitising twice equals sanitising once |
| Scrape.RemoveExtraPrefixes | scrape.py:79-85 | the result is a suffix of the title |
| Scrape.RemoveExtraPrefixesSpec | scrape.py:79-85 | `artist - ` is removed if present, otherwise `artist- `, otherwise the title is unchanged |
| Scrape.RemovesOnePrefix | scrape.py:79-85 | a doubled prefix loses only its first copy |
| Scrape.UselessAlbumCaseSensitive | scrape.py:88-89 | the test is case-sensitive: a listed album lower-cased is not listed |
| Scrape.DownloadUrlRoundTrip | scrape.py:73-74 | the track id can be read back from the download URL |
| Scrape.ResumeStart | scrape.py:246-250 | the resume id is never below 1 |
| Scrape.ResumeAfterSave | scrape.py:247-248 | a saved id resumes one queue length earlier, but not below 1 |
| Scrape.StoreDownload | scrape.py:162-179 | data below 8192 bytes is rejected as corrupted; larger data is skipped if the file already exists and written otherwise; the data is written, and the resume id saved, exactly when it reaches 8192 bytes and the file does not exist yet |
| Scrape.HasCoverArt | scrape_bronytunes.py:91-100 | no answer without a `location` header; otherwise no art iff the redirect ends in the placeholder image name |
| Scrape.PlaceholderMeansNoArt | scrape_bronytunes.py:99-100 | a redirect to the placeholder means the song has no art |
| Text.SplitJoin | autotag.py:155 | joining the pieces of a split gives the text back |
| Text.IndexOfSpec | findbadnames.py:135 | `find` gives the first occurrence, or -1 iff absent |
| Text.LastIndexOfSpec | findbadnames.py:136 | `rfind` gives the last occurrence, or -1 iff absent |
| Text.DecimalRoundTrip | scrape.py:248 | reading back a written id gives the id |

## Left out

- Threads, the parse, tagging, download and conversion queues, locks and sleeps: the model runs each script sequentially, in queue order.
- The shell and subprocess calls are inputs to the model. This covers ffmpeg, ffprobe, youtube-dl, convert, eyeD3 and metaflac, the sqlite queries and HTTP requests. The tag writer's run is not modelled; only the argument list it receives is.
- `query_yes_no` is the `answer` parameter, read only when the gate asks.
- `existsDupe` in findbadnames.py is the `isDupe` flag of an entry, and `os.path.isfile` the `isFile` flag. The model does not cover Levenshtein's use inside `existsDupe`, the mp3 deletion, or the exact-name test.
- `checkFolderDupes`'s sibling list is every name in the folder. Its `os.path.isfile(entry)` tests a bare name against the working directory, so it filters nothing in the usual run.
- `Text.Lower`, `Text.Strip` and the `\s` class are ASCII approximations of Python's Unicode case mapping and whitespace.
- `Levenshtein.ComputeLevenshtein` uses an integer `array2` where the source fills a numpy float matrix. The values are small integers, so this changes nothing.
- `Matcher.ComputeScore`: the score is computed on reals, not `f32`, so rounding near the thresholds is not modelled. Durations are unbounded integers, so `i32` overflow in the window test is not modelled.
- `Scrape.ResumeStart`: `int()` tolerating surrounding whitespace and a sign is not modelled; such a file is read as unreadable and resumes at 1.
- `AutoTag.PathJoin` covers the cases `os.path.join` meets here, not `..` or repeated slashes.
- `merge_best_of_songs`, `import_cover_art` and the database update in diff_song_db.py are file operations on the matched pair and are not modelled. The model stops at the decision to merge.
- The matcher's standard-input protocol in main.rs and song.rs is not part of this model; `Matcher.FindFingerprintMatch` returns the index of the match.
- dlcoverart.py's `hasCoverArt`, `downloadCoverArt`, `addCoverArt` and `processMatchingVideo` are external commands. The model stops at `CoverArt.FindMatch`'s choice of video. The `canonTitle` stored with each video is never read, so it is not modelled.
- The recursive listing of local files for dlcoverart.py is an input; `CoverArt.MakeLocalFile` builds one entry from a path.
- `processArtists` and `processArtistFolder` (the `os.walk` producing parse jobs) are not modelled; `AutoTag.Tagger.ProcessFolder` takes one job and its directory entries.
- The percentages of autotag.py's final statistics are not modelled. The model keeps the counters; a run without songs divides by zero there.
- `AutoTag.Tagger.ProcessTaggingTask`: follows the corrected gate. On `--do-nothing --quiet` with a task that is not skipped, it answers `WouldHaveApplied` and changes nothing, whereas autotag.py:308-314 applies the task. Its contract states this difference; `AutoTag.GateAsWritten` is the written gate.
- `BadNames.NameAudit.FolderChecks`: follows the intended duplicate check. A folder with a sibling of the same reduced name is reported and fails, whereas findbadnames.py:84-87 reports nothing and passes it. `BadNames.FolderRulesDiffer` states where the two differ.
- `BadNames.NameAudit.CheckEntry`: inherits that difference. Such a folder adds an issue line and is not counted good; the script as written adds no line and counts it good.
- `BadNames.NameAudit.CheckTree`: inherits the same difference for every such folder of the walk. The good count and the issue lines match the script as written only when no folder has such a sibling.
- Printed messages other than issue lines, prompts and tag-writer commands are left out.
- The opus conversion of scrape.py is switched off by a constant and is not modelled.
- `SongDb.GroupByArtist` takes the source songs in the order of the fingerprint dictionary's keys (`SongDb.ImportSongs`'s order).
- The download and resume-file writes of the scrapers are not modelled, beyond `Scrape.StoreDownload`'s decision and the resume id. A download that fails before any data arrives also saves the resume id (scrape.py:155-160); `Scrape.StoreDownload` starts from received data, so that path is outside it.

## Findings

| source | as written | input that shows it | evidently intended | confidence | as-written member | corrected member |
|---|---|---|---|---|---|---|
| findbadnames.py:84 | `showError` is called with one argument; the TypeError is caught at lines 85-86, and the function returns True | a folder `a b` next to a folder `ab` | report `duplicate_folder_reduced_name` and fail the folder | high, not executed | BadNames.DuplicateFolderMissed | BadNames.NameAudit.CheckFolderDupes |
| autotag.py:308-314 | the `return` of a dry run sits under `if not args.quiet`, so `--do-nothing --quiet` reaches `applyUpdates` | any non-skipped task with `--do-nothing --quiet` | a dry run never applies a change | high, not executed | AutoTagProps.QuietDryRunApplies | AutoTagProps.DryRunNeverApplies |

`AutoTag.Gate` and `AutoTag.Tagger.ProcessTaggingTask` use the corrected
gate. `AutoTag.GateAsWritten` keeps the written one. For the first finding,
`BadNames.CheckFolderDupesAsWritten` and `BadNames.FolderCheckAsWritten` are
the written checks, and `BadNames.FolderCheck` uses the intended one. The
members of the walk inherit the corrected behaviour, as listed under
"Left out".

The empty-task branch of `processTaggingTask` calls an undefined `printf`
and would raise a NameError. `AutoTag.Gate` keeps this as the `NameError`
outcome. `AutoTagProps.FolderTasksNonEmpty` shows that the folder scan
never queues such a task.
