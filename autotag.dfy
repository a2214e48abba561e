/** The folder-scan and tagging pipeline of autotag.py, run sequentially:
    tag records and overlays, the ffmetadata reader output parser, the
    per-folder inference of title, album and artist, the metadata store and
    the decision gate in front of the tag writer. */
module AutoTag {
  import opened Wrappers
  import opened Text

  /** A file's known tags; the empty string means the tag is absent. */
  datatype Metadata = Metadata(path: string, artist: string, album: string, title: string)

  datatype Field = Artist | Album | Title

  /** A sparse patch against a record: `None` is "not part of this patch". */
  datatype Overlay = Overlay(path: string, artist: Option<string>, album: Option<string>, title: Option<string>)

  function FieldOf(m: Metadata, f: Field): string {
    match f
    case Artist => m.artist
    case Album => m.album
    case Title => m.title
  }

  function PatchOf(u: Overlay, f: Field): Option<string> {
    match f
    case Artist => u.artist
    case Album => u.album
    case Title => u.title
  }

  /** Python truthiness of an overlay field: set, and not the empty string. */
  predicate Truthy(v: Option<string>) {
    v.Some? && v.value != ""
  }

  /** `Metadata.makeUpdateObject`: a patch of the record's path that sets one field. */
  function MakeUpdateObject(m: Metadata, f: Field, v: string): (u: Overlay)
    ensures u.path == m.path
    ensures PatchOf(u, f) == Some(v)
    ensures forall g :: g != f ==> PatchOf(u, g) == None
  {
    match f
    case Artist => Overlay(m.path, Some(v), None, None)
    case Album => Overlay(m.path, None, Some(v), None)
    case Title => Overlay(m.path, None, None, Some(v))
  }

  /** `Metadata.applyUpdate`: a new record with the same path, taking every
      field the patch sets to a non-empty value, keeping the others. */
  function ApplyUpdate(m: Metadata, u: Overlay): (r: Metadata)
    ensures r.path == m.path
    ensures forall f :: Truthy(PatchOf(u, f)) ==> FieldOf(r, f) == PatchOf(u, f).value
    ensures forall f :: !Truthy(PatchOf(u, f)) ==> FieldOf(r, f) == FieldOf(m, f)
  {
    Metadata(m.path,
      if Truthy(u.artist) then u.artist.value else m.artist,
      if Truthy(u.album) then u.album.value else m.album,
      if Truthy(u.title) then u.title.value else m.title)
  }

  /** A one-field patch with a non-empty value changes that field and nothing else. */
  lemma SingleFieldUpdate(m: Metadata, source: Metadata, f: Field, v: string)
    requires v != ""
    ensures var r := ApplyUpdate(m, MakeUpdateObject(source, f, v));
      && r.path == m.path
      && FieldOf(r, f) == v
      && forall g :: g != f ==> FieldOf(r, g) == FieldOf(m, g)
  {
  }

  /** The legacy quirk: a patch that sets a field to the empty string is a no-op. */
  lemma EmptyValuePatchIsNoOp(m: Metadata, source: Metadata, f: Field)
    ensures ApplyUpdate(m, MakeUpdateObject(source, f, "")) == m
  {
  }

  /** Applying the same patch twice is applying it once. */
  lemma ApplyUpdateIdempotent(m: Metadata, u: Overlay)
    ensures ApplyUpdate(ApplyUpdate(m, u), u) == ApplyUpdate(m, u)
  {
  }

  // ---------------------------------------------------------------------
  // Reading tags: the text `ffmpeg -f ffmetadata` prints

  /** One `key=value` line: the key lowercased, `\=` in the value turned into `=`. */
  datatype Tag = Tag(name: string, value: string)

  /** `value.replace('\\=', '=')`, scanning left to right. */
  function UnescapeEquals(s: string): (r: string)
    ensures |r| <= |s|
  {
    if |s| >= 2 && s[0] == '\\' && s[1] == '=' then "=" + UnescapeEquals(s[2..])
    else if s == [] then []
    else [s[0]] + UnescapeEquals(s[1..])
  }

  /** Writing every `=` as `\=`, as the ffmetadata format escapes it. */
  function EscapeEquals(s: string): string {
    if s == [] then [] else (if s[0] == '=' then "\\=" else [s[0]]) + EscapeEquals(s[1..])
  }

  /** A value without backslashes survives escaping and the reader's unescaping. */
  lemma {:induction false} UnescapeEscapeRoundTrip(s: string)
    requires '\\' !in s
    ensures UnescapeEquals(EscapeEquals(s)) == s
  {
    if s != [] {
      UnescapeEscapeRoundTrip(s[1..]);
      if s[0] == '=' {
        assert EscapeEquals(s) == "\\=" + EscapeEquals(s[1..]);
      } else {
        assert EscapeEquals(s) == [s[0]] + EscapeEquals(s[1..]);
      }
    }
  }

  /** `line.split('=', 1)`: lines without `=` carry no tag. */
  function LineTag(line: string): Option<Tag> {
    var k := IndexOf(line, '=');
    if k == -1 then None else Some(Tag(Lower(line[..k]), UnescapeEquals(line[k + 1..])))
  }

  predicate HasKey(line: string, key: string) {
    LineTag(line).Some? && LineTag(line).value.name == key
  }

  /** The value of the last line carrying `key`, or `''` when none does. */
  function LastValue(lines: seq<string>, key: string): string {
    if lines == [] then ""
    else if HasKey(lines[|lines| - 1], key) then LineTag(lines[|lines| - 1]).value.value
    else LastValue(lines[..|lines| - 1], key)
  }

  /** How many lines carry `key` (each bumps the global tag counter once). */
  function KeyCount(lines: seq<string>, key: string): (r: nat)
    ensures r <= |lines|
  {
    if lines == [] then 0
    else KeyCount(lines[..|lines| - 1], key) + (if HasKey(lines[|lines| - 1], key) then 1 else 0)
  }

  /** The last occurrence of a key wins. */
  lemma {:induction false} LastOccurrenceWins(lines: seq<string>, key: string, j: nat)
    requires j < |lines| && HasKey(lines[j], key)
    requires forall k :: j < k < |lines| ==> !HasKey(lines[k], key)
    ensures LastValue(lines, key) == LineTag(lines[j]).value.value
    ensures KeyCount(lines, key) >= 1
    decreases |lines|
  {
    if j < |lines| - 1 {
      var pre := lines[..|lines| - 1];
      LastOccurrenceWins(pre, key, j);
    }
  }

  /** A key that no line carries files as `''` and is never counted. */
  lemma {:induction false} AbsentKeyIsEmpty(lines: seq<string>, key: string)
    requires forall k :: 0 <= k < |lines| ==> !HasKey(lines[k], key)
    ensures LastValue(lines, key) == "" && KeyCount(lines, key) == 0
    decreases |lines|
  {
    if lines != [] {
      AbsentKeyIsEmpty(lines[..|lines| - 1], key);
    }
  }

  /** The lines of the reader's output after `strip()`. */
  function OutputLines(output: string): seq<string> {
    Split(Strip(output), '\n')
  }

  /** The record `getMetadata` builds from the reader's output. */
  function ParseFfmetadata(srcPath: string, output: string): (m: Metadata)
    ensures m.path == srcPath
  {
    var lines := OutputLines(output);
    Metadata(srcPath, LastValue(lines, "artist"), LastValue(lines, "album"), LastValue(lines, "title"))
  }

  // ---------------------------------------------------------------------
  // Paths

  /** `os.path.join(a, b)` on POSIX. */
  function PathJoin(a: string, b: string): string {
    if StartsWith(b, "/") then b
    else if a == "" || EndsWith(a, "/") then a + b
    else a + "/" + b
  }

  /** `os.path.splitext(name)[0]` for a directory entry name (no `/`): the name
      without its last extension; a name whose dots are all leading keeps them. */
  function SplitextRoot(name: string): (r: string)
    ensures StartsWith(name, r)
  {
    var dot := LastIndexOf(name, '.');
    if dot > 0 && exists k | 0 <= k < dot :: name[k] != '.' then name[..dot] else name
  }

  /** The root of `stem.ext` is `stem` when the extension has no dot and the
      stem is not only dots. */
  lemma SplitextDropsLastExtension(stem: string, ext: string, k: nat)
    requires '.' !in ext
    requires k < |stem| && stem[k] != '.'
    ensures SplitextRoot(stem + "." + ext) == stem
  {
    var name := stem + "." + ext;
    assert name[|stem|] == '.';
    assert name[|stem| + 1..] == ext;
    var dot := LastIndexOf(name, '.');
    LastIndexOfSpec(name, '.');
    assert dot == |stem|;
    assert name[k] != '.';
  }

  /** `os.path.dirname` */
  function DirName(p: string): string {
    var k := LastIndexOf(p, '/');
    if k == -1 then "" else
      var head := p[..k + 1];
      if exists j | 0 <= j < |head| :: head[j] != '/' then StripTrailingSlashes(head) else head
  }

  function StripTrailingSlashes(s: string): string {
    if s != [] && s[|s| - 1] == '/' then StripTrailingSlashes(s[..|s| - 1]) else s
  }

  // ---------------------------------------------------------------------
  // Tallies of existing tag values

  /** The values of one field, in scan order. */
  function Values(metas: seq<Metadata>, f: Field): (r: seq<string>)
    ensures |r| == |metas|
  {
    if metas == [] then [] else Values(metas[..|metas| - 1], f) + [FieldOf(metas[|metas| - 1], f)]
  }

  /** Position by position, the values are the records' fields. */
  lemma {:induction false} ValuesSpec(metas: seq<Metadata>, f: Field)
    ensures forall i :: 0 <= i < |metas| ==> Values(metas, f)[i] == FieldOf(metas[i], f)
    decreases |metas|
  {
    if metas != [] {
      ValuesSpec(metas[..|metas| - 1], f);
    }
  }

  /** The records lacking the field, in scan order (`noAlbumTag`, `noArtistTag`). */
  function Missing(metas: seq<Metadata>, f: Field): (r: seq<Metadata>)
    ensures |r| <= |metas|
  {
    if metas == [] then []
    else Missing(metas[..|metas| - 1], f) + (if FieldOf(metas[|metas| - 1], f) == "" then [metas[|metas| - 1]] else [])
  }

  /** Exactly the records with an empty field are missing it. */
  lemma {:induction false} MissingMembers(metas: seq<Metadata>, f: Field)
    ensures forall m :: m in Missing(metas, f) <==> m in metas && FieldOf(m, f) == ""
    decreases |metas|
  {
    if metas != [] {
      MissingMembers(metas[..|metas| - 1], f);
      assert metas == metas[..|metas| - 1] + [metas[|metas| - 1]];
    }
  }

  /** The non-empty values in order of first appearance (the keys of the count
      dictionary, which keeps insertion order). */
  function Distinct(vals: seq<string>): (r: seq<string>)
    ensures |r| <= |vals|
  {
    if vals == [] then []
    else
      var d := Distinct(vals[..|vals| - 1]);
      var v := vals[|vals| - 1];
      if v == "" || v in d then d else d + [v]
  }

  /** The keys are the non-empty values, each listed once. */
  lemma {:induction false} DistinctMembers(vals: seq<string>)
    ensures forall v :: v in Distinct(vals) <==> v in vals && v != ""
    ensures forall i, j :: 0 <= i < j < |Distinct(vals)| ==> Distinct(vals)[i] != Distinct(vals)[j]
    decreases |vals|
  {
    if vals != [] {
      DistinctMembers(vals[..|vals| - 1]);
      assert vals == vals[..|vals| - 1] + [vals[|vals| - 1]];
    }
  }

  /** How often `v` occurs. */
  function Occurrences(vals: seq<string>, v: string): (r: nat)
    ensures r <= |vals|
  {
    if vals == [] then 0
    else Occurrences(vals[..|vals| - 1], v) + (if vals[|vals| - 1] == v then 1 else 0)
  }

  /** `v` is counted iff it occurs. */
  lemma {:induction false} OccurrencesPositive(vals: seq<string>, v: string)
    ensures Occurrences(vals, v) > 0 <==> v in vals
    decreases |vals|
  {
    if vals != [] {
      OccurrencesPositive(vals[..|vals| - 1], v);
      assert vals == vals[..|vals| - 1] + [vals[|vals| - 1]];
    }
  }

  /** `sorted(keys, key=counts.get, reverse=True)[0]`. */
  function TopKey(keys: seq<string>, counts: map<string, nat>): (r: string)
    requires |keys| > 0
    requires forall k :: k in keys ==> k in counts
    ensures r in keys
  {
    if |keys| == 1 then keys[0]
    else
      var t := TopKey(keys[1..], counts);
      if counts[keys[0]] >= counts[t] then keys[0] else t
  }

  /** The head of the stably reverse-sorted keys is the first key with the
      highest count: no key counts more, and every key before it counts less. */
  lemma TopKeySpec(keys: seq<string>, counts: map<string, nat>)
    requires |keys| > 0
    requires forall k :: k in keys ==> k in counts
    ensures forall k :: k in keys ==> counts[k] <= counts[TopKey(keys, counts)]
    ensures exists i ::
      && 0 <= i < |keys|
      && keys[i] == TopKey(keys, counts)
      && (forall j :: 0 <= j < i ==> counts[keys[j]] < counts[TopKey(keys, counts)])
  {
    TopKeyMax(keys, counts);
    TopKeyFirst(keys, counts);
  }

  lemma {:induction false} TopKeyMax(keys: seq<string>, counts: map<string, nat>)
    requires |keys| > 0
    requires forall k :: k in keys ==> k in counts
    ensures forall k :: k in keys ==> counts[k] <= counts[TopKey(keys, counts)]
    decreases |keys|
  {
    if |keys| > 1 {
      TopKeyMax(keys[1..], counts);
      assert forall k :: k in keys ==> k == keys[0] || k in keys[1..];
    }
  }

  lemma {:induction false} TopKeyFirst(keys: seq<string>, counts: map<string, nat>)
    requires |keys| > 0
    requires forall k :: k in keys ==> k in counts
    ensures exists i ::
      && 0 <= i < |keys|
      && keys[i] == TopKey(keys, counts)
      && (forall j :: 0 <= j < i ==> counts[keys[j]] < counts[TopKey(keys, counts)])
    decreases |keys|
  {
    if |keys| > 1 {
      var rest := keys[1..];
      TopKeyFirst(rest, counts);
      var t := TopKey(rest, counts);
      var i :| 0 <= i < |rest| && rest[i] == t && forall j :: 0 <= j < i ==> counts[rest[j]] < counts[t];
      if counts[keys[0]] < counts[t] {
        assert keys[i + 1] == t;
        forall j | 0 <= j < i + 1 ensures counts[keys[j]] < counts[t] {
          if j > 0 { assert keys[j] == rest[j - 1]; }
        }
      } else {
        assert keys[0] == TopKey(keys, counts);
      }
    } else {
      assert keys[0] == TopKey(keys, counts);
    }
  }

  /** The count dictionary built over `vals`: each non-empty value mapped to
      how often it occurs. */
  function Counts(vals: seq<string>): (m: map<string, nat>)
  {
    if vals == [] then map[]
    else
      var c := Counts(vals[..|vals| - 1]);
      var v := vals[|vals| - 1];
      if v == "" then c
      else c[v := (if v in c then c[v] else 0) + 1]
  }

  /** The dictionary holds exactly the keys, each with its number of occurrences. */
  lemma {:induction false} CountsMembers(vals: seq<string>)
    ensures forall v :: v in Counts(vals) <==> v in Distinct(vals)
    ensures forall v :: v in Counts(vals) ==> Counts(vals)[v] == Occurrences(vals, v)
    decreases |vals|
  {
    if vals != [] {
      var init := vals[..|vals| - 1];
      CountsMembers(init);
      DistinctMembers(init);
      OccurrencesPositive(init, vals[|vals| - 1]);
    }
  }

  /** The value a tally of `vals` proposes: the most common, first seen on ties. */
  function MostCommon(vals: seq<string>): (r: string)
    requires Distinct(vals) != []
    ensures r in vals && r != ""
    ensures forall v :: v in vals && v != "" ==> Occurrences(vals, v) <= Occurrences(vals, r)
  {
    DistinctMembers(vals);
    CountsMembers(vals);
    TopKeySpec(Distinct(vals), Counts(vals));
    TopKey(Distinct(vals), Counts(vals))
  }

  // ---------------------------------------------------------------------
  // Tagging tasks

  datatype TaskKind = File | Folder

  datatype TaggingTask = TaggingTask(kind: TaskKind, updates: seq<Overlay>, description: string, isComplex: bool)

  datatype ParseJob = ParseJob(artistPath: string, artist: string, folderRelPath: string)

  /** One directory entry: its name, whether it is a regular file, and what
      the tag reader printed for it (`None` when the reader failed). */
  datatype DirEntry = DirEntry(name: string, isFile: bool, reading: Option<string>)

  /** A regular file of the folder and its record, `None` when unreadable. */
  datatype FileRead = FileRead(name: string, meta: Option<Metadata>)

  function FolderFullPath(job: ParseJob): string {
    PathJoin(job.artistPath, job.folderRelPath)
  }

  function ReadEntry(dir: string, e: DirEntry): FileRead {
    FileRead(e.name, if e.reading.None? then None else Some(ParseFfmetadata(PathJoin(dir, e.name), e.reading.value)))
  }

  /** The regular files of the folder, read in scan order. */
  function Scan(dir: string, entries: seq<DirEntry>): (r: seq<FileRead>)
    ensures |r| <= |entries|
  {
    if entries == [] then []
    else
      var e := entries[|entries| - 1];
      Scan(dir, entries[..|entries| - 1]) + (if e.isFile then [ReadEntry(dir, e)] else [])
  }

  /** `filesMeta`: the records of the readable files. */
  function Readable(files: seq<FileRead>): (r: seq<Metadata>)
    ensures |r| <= |files|
  {
    if files == [] then []
    else
      var f := files[|files| - 1];
      Readable(files[..|files| - 1]) + (if f.meta.Some? then [f.meta.value] else [])
  }

  // The prompts shown for each kind of task, around the proposed value.
  const TitlePrompt: string := "Set title to \""
  const TitlePromptEnd: string := "\" based on file name"
  const AlbumFromTagsPrompt: string := "Use the most common tag in other tracks of this album: \""
  const AlbumFromFolderPrompt: string := "Set the album tag to the folder name: \""
  const ArtistFromTagsPrompt: string := "Use the most common artist tag in the folder: \""
  const ArtistFromFolderPrompt: string := "Set the artist tag to the artist folder's name: \""
  const PromptEnd: string := "\""

  function TitleTask(name: string, m: Metadata): TaggingTask {
    var newTitle := SplitextRoot(name);
    TaggingTask(File, [MakeUpdateObject(m, Title, newTitle)],
      TitlePrompt + newTitle + TitlePromptEnd, false)
  }

  /** The FILE task one scanned file yields: one for a readable file without a title. */
  function FileTasks(f: FileRead): seq<TaggingTask> {
    if f.meta.Some? && f.meta.value.title == "" then [TitleTask(f.name, f.meta.value)] else []
  }

  /** The record the FILE task of one scanned file registers. */
  function FileRegistrations(f: FileRead): seq<Metadata> {
    if f.meta.Some? && f.meta.value.title == "" then [f.meta.value] else []
  }

  /** The FILE tasks of a folder, in scan order. */
  function TitleTasks(files: seq<FileRead>): seq<TaggingTask> {
    if files == [] then [] else TitleTasks(files[..|files| - 1]) + FileTasks(files[|files| - 1])
  }

  /** The records registered by the FILE tasks of a folder, in scan order. */
  function TitleRegistrations(files: seq<FileRead>): seq<Metadata> {
    if files == [] then [] else TitleRegistrations(files[..|files| - 1]) + FileRegistrations(files[|files| - 1])
  }

  function Updates(metas: seq<Metadata>, f: Field, v: string): (r: seq<Overlay>)
    ensures |r| == |metas|
    ensures forall i :: 0 <= i < |metas| ==> r[i] == MakeUpdateObject(metas[i], f, v)
  {
    if metas == [] then [] else Updates(metas[..|metas| - 1], f, v) + [MakeUpdateObject(metas[|metas| - 1], f, v)]
  }

  /** The album a folder's untagged files receive and whether that is a complex decision. */
  function AlbumChoice(job: ParseJob, metas: seq<Metadata>): (string, bool) {
    var albums := Values(metas, Album);
    var keys := Distinct(albums);
    if keys != [] then (MostCommon(albums), |keys| > 1)
    else (ReplaceCharByString(job.folderRelPath, '/', " - "),
          '/' in job.folderRelPath || job.folderRelPath == "Instrumentals" || job.folderRelPath == "A capellas")
  }

  function AlbumDescription(job: ParseJob, metas: seq<Metadata>, value: string): string {
    if Distinct(Values(metas, Album)) != [] then AlbumFromTagsPrompt + value + PromptEnd
    else AlbumFromFolderPrompt + value + PromptEnd
  }

  /** The FOLDER task for missing albums, emitted only below the artist root. */
  function AlbumTask(job: ParseJob, metas: seq<Metadata>): Option<TaggingTask> {
    var missing := Missing(metas, Album);
    if missing == [] || job.folderRelPath == "" then None
    else
      var (value, complex) := AlbumChoice(job, metas);
      Some(TaggingTask(Folder, Updates(missing, Album, value), AlbumDescription(job, metas, value), complex))
  }

  /** The artist a folder's untagged files receive and whether that is a complex decision. */
  function ArtistChoice(job: ParseJob, metas: seq<Metadata>): (string, bool) {
    var artists := Values(metas, Artist);
    var keys := Distinct(artists);
    if keys != [] then (MostCommon(artists), |keys| > 1 && MostCommon(artists) != job.artist)
    else (job.artist, false)
  }

  function ArtistDescription(job: ParseJob, metas: seq<Metadata>, value: string): string {
    if Distinct(Values(metas, Artist)) != [] then ArtistFromTagsPrompt + value + PromptEnd
    else ArtistFromFolderPrompt + value + PromptEnd
  }

  /** The FOLDER task for missing artists, emitted at any folder depth. */
  function ArtistTask(job: ParseJob, metas: seq<Metadata>): Option<TaggingTask> {
    var missing := Missing(metas, Artist);
    if missing == [] then None
    else
      var (value, complex) := ArtistChoice(job, metas);
      Some(TaggingTask(Folder, Updates(missing, Artist, value), ArtistDescription(job, metas, value), complex))
  }

  function OptionalTask(t: Option<TaggingTask>): seq<TaggingTask> {
    if t.Some? then [t.value] else []
  }

  /** The FOLDER tasks `processFolder` queues once it holds some readable
      record: the album one, then the artist one. */
  function FolderLevelTasks(job: ParseJob, metas: seq<Metadata>): seq<TaggingTask> {
    if metas == [] then [] else OptionalTask(AlbumTask(job, metas)) + OptionalTask(ArtistTask(job, metas))
  }

  /** The records those FOLDER tasks register: all of them, once per task. */
  function FolderLevelRegistrations(job: ParseJob, metas: seq<Metadata>): seq<Metadata> {
    var byAlbum := if metas != [] && AlbumTask(job, metas).Some? then metas else [];
    var byArtist := if metas != [] && ArtistTask(job, metas).Some? then metas else [];
    byAlbum + byArtist
  }

  /** Every task `processFolder` queues for one folder, in queue order. */
  function FolderTasks(job: ParseJob, files: seq<FileRead>): seq<TaggingTask> {
    TitleTasks(files) + FolderLevelTasks(job, Readable(files))
  }

  /** The records registered by the queueing calls of one folder, in order:
      the FILE tasks register their own record, each FOLDER task all of them. */
  function FolderRegistrations(job: ParseJob, files: seq<FileRead>): seq<Metadata> {
    TitleRegistrations(files) + FolderLevelRegistrations(job, Readable(files))
  }

  // ---------------------------------------------------------------------
  // The metadata store

  /** Insert-if-absent registration of records, in order. */
  function Register(store: map<string, Metadata>, metas: seq<Metadata>): map<string, Metadata> {
    if metas == [] then store
    else
      var s := Register(store, metas[..|metas| - 1]);
      var m := metas[|metas| - 1];
      if m.path in s then s else s[m.path := m]
  }

  /** Registration never replaces a stored record, stores every record's path,
      and files each new path under the first record carrying it. */
  lemma {:induction false} RegisterSpec(store: map<string, Metadata>, metas: seq<Metadata>)
    ensures forall p :: p in store ==> p in Register(store, metas) && Register(store, metas)[p] == store[p]
    ensures forall m :: m in metas ==> m.path in Register(store, metas)
    ensures forall p :: p in Register(store, metas) && p !in store ==>
      exists j :: 0 <= j < |metas| && Register(store, metas)[p] == metas[j] && metas[j].path == p
        && forall k :: 0 <= k < j ==> metas[k].path != p
    decreases |metas|
  {
    if metas != [] {
      var init := metas[..|metas| - 1];
      RegisterSpec(store, init);
      assert metas == init + [metas[|metas| - 1]];
    }
  }

  /** Every overlay of a queued task names a path the store holds. */
  ghost predicate RegisteredIn(store: map<string, Metadata>, t: TaggingTask) {
    forall j :: 0 <= j < |t.updates| ==> t.updates[j].path in store
  }

  /** The question put to the user: the file for a FILE task, the number of
      files and their folder (taken from the first patch) for a FOLDER task. */
  function Prompt(t: TaggingTask): (r: string)
    requires |t.updates| > 0
    ensures StartsWith(r, "Update ") && EndsWith(r, t.description + "?")
  {
    match t.kind
    case File => "Update file " + t.updates[0].path + ": " + t.description + "?"
    case Folder => "Update " + Decimal(|t.updates|) + " files in " + DirName(t.updates[0].path) + ": " + t.description + "?"
  }

  // ---------------------------------------------------------------------
  // The tag writer (`updateMetadata`)

  /** The argument list handed to the external writer for the whole merged
      record, or `None` where `updateMetadata` raises for an unexpected type. */
  function WriterCommand(m: Metadata): (r: Option<seq<string>>)
    ensures r.Some? <==> EndsWith(m.path, ".mp3") || EndsWith(m.path, ".flac")
    ensures r.Some? ==> |r.value| >= 2 && r.value[1] == m.path
  {
    if EndsWith(m.path, ".mp3") then
      Some(["eyeD3", m.path]
        + (if m.artist != "" then ["--artist", m.artist] else [])
        + (if m.album != "" then ["--album", m.album] else [])
        + (if m.title != "" then ["--title", m.title] else []))
    else if EndsWith(m.path, ".flac") then
      Some(["metaflac", m.path]
        + (if m.artist != "" then ["--remove-tag", "ARTIST", "--set-tag", "ARTIST=" + m.artist] else [])
        + (if m.album != "" then ["--remove-tag", "ALBUM", "--set-tag", "ALBUM=" + m.album] else [])
        + (if m.title != "" then ["--remove-tag", "TITLE", "--set-tag", "TITLE=" + m.title] else []))
    else None
  }

  /** The store after `applyUpdates`, the writer invocations it made, and
      whether it stopped on a record the writer cannot handle. */
  datatype ApplyResult = ApplyResult(store: map<string, Metadata>, commands: seq<seq<string>>, raised: bool)

  ghost predicate AllRegistered(store: map<string, Metadata>, updates: seq<Overlay>) {
    forall j :: 0 <= j < |updates| ==> updates[j].path in store
  }

  /** `applyUpdates`: overlay by overlay, the stored record is replaced by the
      patched one and the whole record is handed to the writer; the run stops
      at the first record the writer cannot handle, after storing it. */
  ghost function ApplyAll(store: map<string, Metadata>, updates: seq<Overlay>): (r: ApplyResult)
    requires AllRegistered(store, updates)
    ensures r.store.Keys == store.Keys
    ensures |r.commands| <= |updates|
    ensures r.raised <==> |r.commands| < |updates|
    decreases |updates|
  {
    if updates == [] then ApplyResult(store, [], false)
    else
      var n := |updates| - 1;
      var r := ApplyAll(store, updates[..n]);
      if r.raised then r
      else
        var u := updates[n];
        var m := ApplyUpdate(r.store[u.path], u);
        match WriterCommand(m)
        case None => ApplyResult(r.store[u.path := m], r.commands, true)
        case Some(c) => ApplyResult(r.store[u.path := m], r.commands + [c], false)
  }

  /** One more overlay, after a prefix that did not raise: the patched
      record either ends the run (the writer raises on it) or adds its
      argument list. */
  lemma ApplyAllNext(store: map<string, Metadata>, updates: seq<Overlay>, i: nat, prefix: map<string, Metadata>, done: seq<seq<string>>) returns (m: Metadata)
    requires AllRegistered(store, updates) && i < |updates|
    requires ApplyAll(store, updates[..i]) == ApplyResult(prefix, done, false)
    ensures updates[i].path in prefix && m == ApplyUpdate(prefix[updates[i].path], updates[i])
    ensures WriterCommand(m).None? ==> ApplyAll(store, updates) == ApplyResult(prefix[updates[i].path := m], done, true)
    ensures WriterCommand(m).Some? ==> ApplyAll(store, updates[..i + 1]) == ApplyResult(prefix[updates[i].path := m], done + [WriterCommand(m).value], false)
  {
    var next := updates[..i + 1];
    assert next[..i] == updates[..i];
    assert next[|next| - 1] == updates[i];
    m := ApplyUpdate(prefix[updates[i].path], updates[i]);
    if WriterCommand(m).None? {
      ApplyAllPrefixRaised(store, updates, i + 1);
    }
  }

  /** Every record stays filed under its own path. */
  lemma {:induction false} ApplyAllKeepsPaths(store: map<string, Metadata>, updates: seq<Overlay>)
    requires AllRegistered(store, updates)
    requires forall p :: p in store ==> store[p].path == p
    ensures forall p :: p in ApplyAll(store, updates).store ==> ApplyAll(store, updates).store[p].path == p
    decreases |updates|
  {
    if updates != [] {
      ApplyAllKeepsPaths(store, updates[..|updates| - 1]);
    }
  }

  /** Once the writer has raised, the overlays after it are never applied. */
  lemma {:induction false} ApplyAllPrefixRaised(store: map<string, Metadata>, updates: seq<Overlay>, k: nat)
    requires AllRegistered(store, updates)
    requires k <= |updates| && ApplyAll(store, updates[..k]).raised
    ensures ApplyAll(store, updates) == ApplyAll(store, updates[..k])
    decreases |updates| - k
  {
    if k < |updates| {
      var next := updates[..k + 1];
      assert next[..k] == updates[..k];
      assert ApplyAll(store, next) == ApplyAll(store, updates[..k]);
      ApplyAllPrefixRaised(store, updates, k + 1);
    }
    else {
      assert updates[..k] == updates;
    }
  }

  /** Paths no overlay names keep their record. */
  lemma {:induction false} ApplyAllLeavesOtherPaths(store: map<string, Metadata>, updates: seq<Overlay>, p: string)
    requires AllRegistered(store, updates)
    requires p in store
    requires forall j :: 0 <= j < |updates| ==> updates[j].path != p
    ensures ApplyAll(store, updates).store[p] == store[p]
    decreases |updates|
  {
    if updates != [] {
      ApplyAllLeavesOtherPaths(store, updates[..|updates| - 1], p);
    }
  }

  /** The overlays in order, each patching the record the previous one left. */
  function FoldUpdates(m: Metadata, updates: seq<Overlay>): (r: Metadata)
    ensures r.path == m.path
    ensures forall f :: (forall j :: 0 <= j < |updates| ==> !Truthy(PatchOf(updates[j], f))) ==> FieldOf(r, f) == FieldOf(m, f)
    ensures forall f :: updates != [] && Truthy(PatchOf(updates[|updates| - 1], f)) ==> FieldOf(r, f) == PatchOf(updates[|updates| - 1], f).value
    decreases |updates|
  {
    if updates == [] then m
    else ApplyUpdate(FoldUpdates(m, updates[..|updates| - 1]), updates[|updates| - 1])
  }

  /** Any number of overlays on one mp3 or flac file: the writer never
      raises, every overlay makes one writer call, and the stored record
      ends as the fold of the overlays over the original one. */
  lemma {:induction false} ApplyOnOnePath(store: map<string, Metadata>, p: string, updates: seq<Overlay>)
    requires p in store
    requires forall j :: 0 <= j < |updates| ==> updates[j].path == p
    requires EndsWith(store[p].path, ".mp3") || EndsWith(store[p].path, ".flac")
    ensures AllRegistered(store, updates)
    ensures !ApplyAll(store, updates).raised && |ApplyAll(store, updates).commands| == |updates|
    ensures ApplyAll(store, updates).store == store[p := FoldUpdates(store[p], updates)]
    decreases |updates|
  {
    if updates != [] {
      var n := |updates| - 1;
      var front := updates[..n];
      ApplyOnOnePath(store, p, front);
      var m := ApplyUpdate(FoldUpdates(store[p], front), updates[n]);
      assert WriterCommand(m).Some?;
      assert store[p := FoldUpdates(store[p], front)][p := m] == store[p := m];
    } else {
      assert store[p := store[p]] == store;
    }
  }

  // ---------------------------------------------------------------------
  // The decision gate (`processTaggingTask`)

  datatype Config = Config(doNothing: bool, autoApplySimple: bool, noComplex: bool, verbose: bool, quiet: bool)

  datatype Outcome =
    | NameError          // an empty task reaches the undefined `printf`
    | SkippedComplex     // complex decisions are ignored
    | Declined           // the user answered no
    | WouldHaveApplied   // dry run, reported only
    | Applied            // handed to `applyUpdates`

  /** Whether the user is asked: only for a non-empty, not skipped task that
      is complex or not auto-applied, and never in a dry run. */
  predicate Asks(cfg: Config, t: TaggingTask) {
    && |t.updates| > 0
    && !(t.isComplex && cfg.noComplex)
    && (t.isComplex || !cfg.autoApplySimple)
    && !cfg.doNothing
  }

  /** The prompt printed for a task: put to the user, or shown with
      `[skipping prompt]` in a dry run. */
  function ShownPrompt(cfg: Config, t: TaggingTask): Option<string> {
    if |t.updates| > 0 && !(t.isComplex && cfg.noComplex) && (t.isComplex || !cfg.autoApplySimple) then Some(Prompt(t))
    else None
  }

  /** What `processTaggingTask` does with a task as written, `answer` being
      the reply the prompt would get (consulted only when `Asks`): the early
      return of a dry run sits under `not quiet`, so a quiet dry run falls
      through to `applyUpdates`. */
  function GateAsWritten(cfg: Config, t: TaggingTask, answer: bool): Outcome {
    if |t.updates| == 0 then NameError
    else if t.isComplex && cfg.noComplex then SkippedComplex
    else if Asks(cfg, t) && !answer then Declined
    else if cfg.doNothing && !cfg.quiet then WouldHaveApplied
    else Applied
  }

  /** The gate as `--do-nothing` describes it: a dry run never applies,
      whether or not it is quiet. */
  function Gate(cfg: Config, t: TaggingTask, answer: bool): Outcome {
    if |t.updates| == 0 then NameError
    else if t.isComplex && cfg.noComplex then SkippedComplex
    else if Asks(cfg, t) && !answer then Declined
    else if cfg.doNothing then WouldHaveApplied
    else Applied
  }

  /** How many tag lines of `key` the reader printed for one entry. */
  function EntryKeyCount(e: DirEntry, key: string): nat {
    if e.isFile && e.reading.Some? then KeyCount(OutputLines(e.reading.value), key) else 0
  }

  /** How many regular files a folder listing holds. */
  function FileCount(entries: seq<DirEntry>): nat {
    if entries == [] then 0
    else FileCount(entries[..|entries| - 1]) + if entries[|entries| - 1].isFile then 1 else 0
  }

  /** Every regular file is scanned, readable or not. */
  lemma {:induction false} ScanCountsFiles(dir: string, entries: seq<DirEntry>)
    ensures |Scan(dir, entries)| == FileCount(entries)
    decreases |entries|
  {
    if entries != [] {
      ScanCountsFiles(dir, entries[..|entries| - 1]);
    }
  }

  /** How many tag lines of `key` the reader printed over a folder's files. */
  function ScanKeyCount(entries: seq<DirEntry>, key: string): nat {
    if entries == [] then 0
    else ScanKeyCount(entries[..|entries| - 1], key) + EntryKeyCount(entries[|entries| - 1], key)
  }

  /** One more line of reader output: it overrides and counts only its own key. */
  lemma LineStep(lines: seq<string>, i: nat, key: string)
    requires i < |lines|
    ensures LastValue(lines[..i + 1], key) == if HasKey(lines[i], key) then LineTag(lines[i]).value.value else LastValue(lines[..i], key)
    ensures KeyCount(lines[..i + 1], key) == KeyCount(lines[..i], key) + if HasKey(lines[i], key) then 1 else 0
  {
    assert lines[..i + 1][..i] == lines[..i];
  }

  /** One more record in a tally: its value is appended, and it is missing iff empty. */
  lemma TallyStep(metas: seq<Metadata>, i: nat, f: Field)
    requires i < |metas|
    ensures Values(metas[..i + 1], f) == Values(metas[..i], f) + [FieldOf(metas[i], f)]
    ensures Missing(metas[..i + 1], f) == Missing(metas[..i], f) + (if FieldOf(metas[i], f) == "" then [metas[i]] else [])
  {
    assert metas[..i + 1][..i] == metas[..i];
  }

  /** One more value: a new non-empty value becomes a key, counted once;
      a known one has its count raised; the empty value changes nothing. */
  lemma CountStep(vals: seq<string>, v: string)
    ensures v in Counts(vals) <==> v in Distinct(vals)
    ensures Distinct(vals + [v]) == if v == "" || v in Distinct(vals) then Distinct(vals) else Distinct(vals) + [v]
    ensures Counts(vals + [v]) == if v == "" then Counts(vals) else Counts(vals)[v := (if v in Counts(vals) then Counts(vals)[v] else 0) + 1]
  {
    assert (vals + [v])[..|vals|] == vals;
    CountsMembers(vals);
  }

  /** Registering two lists in turn is registering their concatenation. */
  lemma {:induction false} RegisterConcat(store: map<string, Metadata>, a: seq<Metadata>, b: seq<Metadata>)
    ensures Register(store, a + b) == Register(Register(store, a), b)
    decreases |b|
  {
    if b == [] {
      assert a + b == a;
    } else {
      RegisterConcat(store, a, b[..|b| - 1]);
      assert (a + b)[..|a + b| - 1] == a + b[..|b| - 1];
    }
  }

  lemma AppendAssoc<T>(a: seq<T>, b: seq<T>, c: seq<T>)
    ensures a + b + c == a + (b + c)
  {
  }

  /** The FILE tasks one directory entry yields. */
  function EntryTasks(dir: string, e: DirEntry): seq<TaggingTask> {
    if e.isFile then FileTasks(ReadEntry(dir, e)) else []
  }

  /** The records the FILE task of one directory entry registers. */
  function EntryRegistrations(dir: string, e: DirEntry): seq<Metadata> {
    if e.isFile then FileRegistrations(ReadEntry(dir, e)) else []
  }

  /** The record one directory entry adds to `filesMeta`. */
  function EntryRecord(dir: string, e: DirEntry): Option<Metadata> {
    if e.isFile then ReadEntry(dir, e).meta else None
  }

  /** One more directory entry: what the scan of a prefix gains from it. */
  lemma ScanStep(dir: string, entries: seq<DirEntry>, i: nat)
    requires i < |entries|
    ensures var files := Scan(dir, entries[..i]);
      var r := EntryRecord(dir, entries[i]);
      && Readable(Scan(dir, entries[..i + 1])) == Readable(files) + (if r.Some? then [r.value] else [])
      && TitleTasks(Scan(dir, entries[..i + 1])) == TitleTasks(files) + EntryTasks(dir, entries[i])
      && TitleRegistrations(Scan(dir, entries[..i + 1])) == TitleRegistrations(files) + EntryRegistrations(dir, entries[i])
    ensures FileCount(entries[..i + 1]) == FileCount(entries[..i]) + if entries[i].isFile then 1 else 0
    ensures ScanKeyCount(entries[..i + 1], "artist") == ScanKeyCount(entries[..i], "artist") + EntryKeyCount(entries[i], "artist")
    ensures ScanKeyCount(entries[..i + 1], "album") == ScanKeyCount(entries[..i], "album") + EntryKeyCount(entries[i], "album")
    ensures ScanKeyCount(entries[..i + 1], "title") == ScanKeyCount(entries[..i], "title") + EntryKeyCount(entries[i], "title")
  {
    var files := Scan(dir, entries[..i]);
    assert entries[..i + 1][..i] == entries[..i];
    if entries[i].isFile {
      var f := ReadEntry(dir, entries[i]);
      assert (files + [f])[..|files|] == files;
    } else {
      assert files + [] == files;
    }
  }

  /** The store keeps every record under its own path, and every queued
      overlay names a stored path. */
  ghost predicate Consistent(store: map<string, Metadata>, tasks: seq<TaggingTask>) {
    && (forall p :: p in store ==> store[p].path == p)
    && (forall i :: 0 <= i < |tasks| ==> RegisteredIn(store, tasks[i]))
  }

  /** Replacing stored records without adding or removing paths keeps the
      queued tasks registered. */
  lemma SameKeysConsistent(store: map<string, Metadata>, store': map<string, Metadata>, tasks: seq<TaggingTask>)
    requires Consistent(store, tasks)
    requires store'.Keys == store.Keys
    requires forall p :: p in store' ==> store'[p].path == p
    ensures Consistent(store', tasks)
  {
  }

  /** The module-level state of autotag.py, with the two queues and the
      external writer made explicit: `store` is `metadataMap`, `tasks` the
      tagging queue (oldest first), `commands` every argument list handed to
      the writer, and the five counters the run statistics. */
  class Tagger {
    var store: map<string, Metadata>
    var tasks: seq<TaggingTask>
    var commands: seq<seq<string>>
    var totalSongs: nat
    var totalAlbumSongs: nat
    var artistTags: nat
    var albumTags: nat
    var titleTags: nat

    /** Every record is stored under its own path, and every queued overlay
        names a registered path. */
    ghost predicate Valid()
      reads this
    {
      Consistent(store, tasks)
    }

    constructor ()
      ensures Valid()
      ensures store == map[] && tasks == [] && commands == []
      ensures totalSongs == 0 && totalAlbumSongs == 0 && artistTags == 0 && albumTags == 0 && titleTags == 0
    {
      store := map[];
      tasks := [];
      commands := [];
      totalSongs, totalAlbumSongs, artistTags, albumTags, titleTags := 0, 0, 0, 0, 0;
    }

    /** `getMetadata`: parse the reader's output line by line, bumping the
        tag counter of every `artist`, `album` or `title` line. */
    method GetMetadata(srcPath: string, reading: Option<string>) returns (meta: Option<Metadata>)
      modifies this`artistTags, this`albumTags, this`titleTags
      ensures meta == if reading.None? then None else Some(ParseFfmetadata(srcPath, reading.value))
      ensures reading.None? ==> artistTags == old(artistTags) && albumTags == old(albumTags) && titleTags == old(titleTags)
      ensures reading.Some? ==> var lines := OutputLines(reading.value);
        && artistTags == old(artistTags) + KeyCount(lines, "artist")
        && albumTags == old(albumTags) + KeyCount(lines, "album")
        && titleTags == old(titleTags) + KeyCount(lines, "title")
    {
      if reading.None? {
        return None;
      }
      var lines := Split(Strip(reading.value), '\n');
      var artist, album, title, artistSeen, albumSeen, titleSeen := ScanTagLines(lines);
      artistTags, albumTags, titleTags := artistTags + artistSeen, albumTags + albumSeen, titleTags + titleSeen;
      meta := Some(Metadata(srcPath, artist, album, title));
    }

    /** The line loop of `getMetadata`: the last value of each tag and how many
        lines carried it. */
    static method ScanTagLines(lines: seq<string>) returns (artist: string, album: string, title: string, artistSeen: nat, albumSeen: nat, titleSeen: nat)
      ensures artist == LastValue(lines, "artist") && artistSeen == KeyCount(lines, "artist")
      ensures album == LastValue(lines, "album") && albumSeen == KeyCount(lines, "album")
      ensures title == LastValue(lines, "title") && titleSeen == KeyCount(lines, "title")
    {
      artist, album, title := "", "", "";
      artistSeen, albumSeen, titleSeen := 0, 0, 0;
      var i := 0;
      while i < |lines|
        invariant 0 <= i <= |lines|
        invariant artist == LastValue(lines[..i], "artist") && artistSeen == KeyCount(lines[..i], "artist")
        invariant album == LastValue(lines[..i], "album") && albumSeen == KeyCount(lines[..i], "album")
        invariant title == LastValue(lines[..i], "title") && titleSeen == KeyCount(lines[..i], "title")
      {
        LineStep(lines, i, "artist");
        LineStep(lines, i, "album");
        LineStep(lines, i, "title");
        var pair := LineTag(lines[i]);
        if pair.Some? {
          var tagname, tagval := pair.value.name, pair.value.value;
          if tagname == "title" {
            title := tagval;
            titleSeen := titleSeen + 1;
          } else if tagname == "artist" {
            artist := tagval;
            artistSeen := artistSeen + 1;
          } else if tagname == "album" {
            album := tagval;
            albumSeen := albumSeen + 1;
          }
        }
        i := i + 1;
      }
      assert lines[..i] == lines;
    }

    /** `queueFileTagJob`: register the record if its path is new, then queue
        a FILE task patching that one field. */
    method QueueFileTagJob(meta: Metadata, f: Field, value: string, description: string, isComplex: bool)
      requires Valid()
      modifies this`store, this`tasks
      ensures Valid()
      ensures store == Register(old(store), [meta])
      ensures tasks == old(tasks) + [TaggingTask(File, [MakeUpdateObject(meta, f, value)], description, isComplex)]
    {
      assert [meta][..0] == [];
      RegisterSpec(store, [meta]);
      if meta.path !in store {
        store := store[meta.path := meta];
      }
      tasks := tasks + [TaggingTask(File, [MakeUpdateObject(meta, f, value)], description, isComplex)];
    }

    /** `queueFolderTagJob`: register every record of the folder whose path is
        new, then queue one FOLDER task. The overlays must come from those
        records, as `processFolder` builds them. */
    method QueueFolderTagJob(metas: seq<Metadata>, updates: seq<Overlay>, description: string, isComplex: bool)
      requires Valid()
      requires forall j :: 0 <= j < |updates| ==> exists m :: m in metas && m.path == updates[j].path
      modifies this`store, this`tasks
      ensures Valid()
      ensures store == Register(old(store), metas)
      ensures tasks == old(tasks) + [TaggingTask(Folder, updates, description, isComplex)]
    {
      var i := 0;
      while i < |metas|
        invariant 0 <= i <= |metas|
        invariant store == Register(old(store), metas[..i])
        invariant forall p :: p in store ==> store[p].path == p
        invariant tasks == old(tasks)
      {
        assert metas[..i + 1][..i] == metas[..i];
        if metas[i].path !in store {
          store := store[metas[i].path := metas[i]];
        }
        i := i + 1;
      }
      assert metas[..i] == metas;
      RegisterSpec(old(store), metas);
      var t := TaggingTask(Folder, updates, description, isComplex);
      assert RegisteredIn(store, t) by {
        forall j | 0 <= j < |updates| ensures updates[j].path in store {
          var m :| m in metas && m.path == updates[j].path;
        }
      }
      tasks := tasks + [t];
    }

    /** The body of the scan loop of `processFolder` for one entry: skip what
        is not a regular file; count a file, read it, and queue a FILE task
        when its title is empty. */
    method ProcessEntry(job: ParseJob, e: DirEntry) returns (meta: Option<Metadata>)
      requires Valid()
      modifies this`store, this`tasks, this`totalSongs, this`totalAlbumSongs, this`artistTags, this`albumTags, this`titleTags
      ensures Valid()
      ensures meta == EntryRecord(FolderFullPath(job), e)
      ensures tasks == old(tasks) + EntryTasks(FolderFullPath(job), e)
      ensures store == Register(old(store), EntryRegistrations(FolderFullPath(job), e))
      ensures totalSongs == old(totalSongs) + (if e.isFile then 1 else 0)
      ensures totalAlbumSongs == old(totalAlbumSongs) + (if e.isFile && job.folderRelPath != "" then 1 else 0)
      ensures artistTags == old(artistTags) + EntryKeyCount(e, "artist")
      ensures albumTags == old(albumTags) + EntryKeyCount(e, "album")
      ensures titleTags == old(titleTags) + EntryKeyCount(e, "title")
    {
      if !e.isFile {
        return None;
      }
      var srcPath := PathJoin(FolderFullPath(job), e.name);
      totalSongs := totalSongs + 1;
      if job.folderRelPath != "" {
        totalAlbumSongs := totalAlbumSongs + 1;
      }
      meta := GetMetadata(srcPath, e.reading);
      if meta.Some? && meta.value.title == "" {
        var newTitle := SplitextRoot(e.name);
        QueueFileTagJob(meta.value, Title, newTitle, TitlePrompt + newTitle + TitlePromptEnd, false);
      }
    }

    /** `processFolder`: scan the folder, then queue the album and the artist
        FOLDER tasks over the readable records. */
    method ProcessFolder(job: ParseJob, entries: seq<DirEntry>)
      requires Valid()
      modifies this`store, this`tasks, this`totalSongs, this`totalAlbumSongs, this`artistTags, this`albumTags, this`titleTags
      ensures Valid()
      ensures tasks == old(tasks) + FolderTasks(job, Scan(FolderFullPath(job), entries))
      ensures store == Register(old(store), FolderRegistrations(job, Scan(FolderFullPath(job), entries)))
      ensures totalSongs == old(totalSongs) + FileCount(entries)
      ensures totalAlbumSongs == old(totalAlbumSongs) + if job.folderRelPath != "" then FileCount(entries) else 0
      ensures artistTags == old(artistTags) + ScanKeyCount(entries, "artist")
      ensures albumTags == old(albumTags) + ScanKeyCount(entries, "album")
      ensures titleTags == old(titleTags) + ScanKeyCount(entries, "title")
    {
      var filesMeta := ScanFolder(job, entries);
      ghost var files := Scan(FolderFullPath(job), entries);
      ghost var scanned := tasks;
      QueueFolderTasks(job, filesMeta);
      assert tasks == scanned + FolderLevelTasks(job, filesMeta);
      AppendAssoc(old(tasks), TitleTasks(files), FolderLevelTasks(job, filesMeta));
      RegisterConcat(old(store), TitleRegistrations(files), FolderLevelRegistrations(job, filesMeta));
    }

    /** The FOLDER half of `processFolder`, skipped when no record is readable. */
    method QueueFolderTasks(job: ParseJob, metas: seq<Metadata>)
      requires Valid()
      modifies this`store, this`tasks
      ensures Valid()
      ensures tasks == old(tasks) + FolderLevelTasks(job, metas)
      ensures store == Register(old(store), FolderLevelRegistrations(job, metas))
    {
      if metas == [] {
        assert tasks == tasks + [];
        return;
      }
      ghost var byAlbum := if AlbumTask(job, metas).Some? then metas else [];
      ghost var byArtist := if ArtistTask(job, metas).Some? then metas else [];
      RegisterConcat(old(store), byAlbum, byArtist);
      AppendAssoc(old(tasks), OptionalTask(AlbumTask(job, metas)), OptionalTask(ArtistTask(job, metas)));
      QueueAlbumTask(job, metas);
      QueueArtistTask(job, metas);
    }

    /** The scan loop of `processFolder`: every regular file is counted, read,
        and given a FILE task when its title is empty; the result is
        `filesMeta`, the records of the readable files. */
    method ScanFolder(job: ParseJob, entries: seq<DirEntry>) returns (filesMeta: seq<Metadata>)
      requires Valid()
      modifies this`store, this`tasks, this`totalSongs, this`totalAlbumSongs, this`artistTags, this`albumTags, this`titleTags
      ensures Valid()
      ensures filesMeta == Readable(Scan(FolderFullPath(job), entries))
      ensures tasks == old(tasks) + TitleTasks(Scan(FolderFullPath(job), entries))
      ensures store == Register(old(store), TitleRegistrations(Scan(FolderFullPath(job), entries)))
      ensures totalSongs == old(totalSongs) + FileCount(entries)
      ensures totalAlbumSongs == old(totalAlbumSongs) + if job.folderRelPath != "" then FileCount(entries) else 0
      ensures artistTags == old(artistTags) + ScanKeyCount(entries, "artist")
      ensures albumTags == old(albumTags) + ScanKeyCount(entries, "album")
      ensures titleTags == old(titleTags) + ScanKeyCount(entries, "title")
    {
      var dir := FolderFullPath(job);
      filesMeta := [];
      var i := 0;
      while i < |entries|
        invariant 0 <= i <= |entries|
        invariant Valid()
        invariant filesMeta == Readable(Scan(dir, entries[..i]))
        invariant tasks == old(tasks) + TitleTasks(Scan(dir, entries[..i]))
        invariant store == Register(old(store), TitleRegistrations(Scan(dir, entries[..i])))
        invariant totalSongs == old(totalSongs) + FileCount(entries[..i])
        invariant totalAlbumSongs == old(totalAlbumSongs) + if job.folderRelPath != "" then FileCount(entries[..i]) else 0
        invariant artistTags == old(artistTags) + ScanKeyCount(entries[..i], "artist")
        invariant albumTags == old(albumTags) + ScanKeyCount(entries[..i], "album")
        invariant titleTags == old(titleTags) + ScanKeyCount(entries[..i], "title")
      {
        var e := entries[i];
        ScanStep(dir, entries, i);
        ghost var files := Scan(dir, entries[..i]);
        RegisterConcat(old(store), TitleRegistrations(files), EntryRegistrations(dir, e));
        AppendAssoc(old(tasks), TitleTasks(files), EntryTasks(dir, e));
        var meta := ProcessEntry(job, e);
        if meta.Some? {
          filesMeta := filesMeta + [meta.value];
        }
        i := i + 1;
      }
      assert entries[..i] == entries;
    }

    /** The album half of `processFolder`: tally the albums and, when some
        record lacks one below the artist root, queue the FOLDER task. */
    method QueueAlbumTask(job: ParseJob, metas: seq<Metadata>)
      requires Valid()
      modifies this`store, this`tasks
      ensures Valid()
      ensures tasks == old(tasks) + OptionalTask(AlbumTask(job, metas))
      ensures store == Register(old(store), if AlbumTask(job, metas).Some? then metas else [])
    {
      var keys, counts, missing := Tally(metas, Album);
      if |missing| > 0 && job.folderRelPath != "" {
        DistinctMembers(Values(metas, Album));
        CountsMembers(Values(metas, Album));
        MissingMembers(metas, Album);
        var value, isComplex, description;
        if |keys| > 0 {
          value := TopKey(keys, counts);
          isComplex := |keys| > 1;
          description := AlbumFromTagsPrompt + value + PromptEnd;
        } else {
          value := ReplaceCharByString(job.folderRelPath, '/', " - ");
          IndexOfSpec(job.folderRelPath, '/');
          isComplex := IndexOf(job.folderRelPath, '/') != -1 || job.folderRelPath == "Instrumentals" || job.folderRelPath == "A capellas";
          description := AlbumFromFolderPrompt + value + PromptEnd;
        }
        var updates := Updates(missing, Album, value);
        assert forall j :: 0 <= j < |updates| ==> missing[j] in metas && missing[j].path == updates[j].path;
        QueueFolderTagJob(metas, updates, description, isComplex);
      }
    }

    /** The artist half of `processFolder`: tally the artists and, when some
        record lacks one, queue the FOLDER task at any folder depth. */
    method QueueArtistTask(job: ParseJob, metas: seq<Metadata>)
      requires Valid()
      modifies this`store, this`tasks
      ensures Valid()
      ensures tasks == old(tasks) + OptionalTask(ArtistTask(job, metas))
      ensures store == Register(old(store), if ArtistTask(job, metas).Some? then metas else [])
    {
      var keys, counts, missing := Tally(metas, Artist);
      if |missing| > 0 {
        DistinctMembers(Values(metas, Artist));
        CountsMembers(Values(metas, Artist));
        MissingMembers(metas, Artist);
        var isComplex := |keys| > 1 && TopKey(keys, counts) != job.artist;
        var value, description;
        if |keys| > 0 {
          value := TopKey(keys, counts);
          description := ArtistFromTagsPrompt + value + PromptEnd;
        } else {
          value := job.artist;
          description := ArtistFromFolderPrompt + value + PromptEnd;
        }
        var updates := Updates(missing, Artist, value);
        assert forall j :: 0 <= j < |updates| ==> missing[j] in metas && missing[j].path == updates[j].path;
        QueueFolderTagJob(metas, updates, description, isComplex);
      }
    }

    /** `applyUpdates`: patch the stored record overlay by overlay and hand
        each merged record to the writer; stops where the writer raises. */
    method ApplyUpdates(updates: seq<Overlay>) returns (raised: bool)
      requires Valid()
      requires AllRegistered(store, updates)
      modifies this`store, this`commands
      ensures Valid()
      ensures store == ApplyAll(old(store), updates).store
      ensures commands == old(commands) + ApplyAll(old(store), updates).commands
      ensures raised == ApplyAll(old(store), updates).raised
    {
      var metadataMap := store;
      var written := commands;
      ghost var done: seq<seq<string>> := [];
      var i := 0;
      while i < |updates|
        invariant 0 <= i <= |updates|
        invariant store == old(store) && commands == old(commands)
        invariant AllRegistered(store, updates[..i])
        invariant ApplyAll(store, updates[..i]) == ApplyResult(metadataMap, done, false)
        invariant written == commands + done
      {
        var u := updates[i];
        ghost var m := ApplyAllNext(store, updates, i, metadataMap, done);
        var newMeta := ApplyUpdate(metadataMap[u.path], u);
        metadataMap := metadataMap[u.path := newMeta];
        var cmd := WriterCommand(newMeta);
        if cmd.None? {
          ApplyAllKeepsPaths(store, updates);
          SameKeysConsistent(store, metadataMap, tasks);
          store, commands := metadataMap, written;
          return true;
        }
        written := written + [cmd.value];
        done := done + [cmd.value];
        i := i + 1;
      }
      assert updates[..i] == updates;
      ApplyAllKeepsPaths(store, updates);
      SameKeysConsistent(store, metadataMap, tasks);
      store, commands := metadataMap, written;
      return false;
    }

    /** `processTaggingTask` on the oldest queued task; `answer` is the reply
        the prompt would get. */
    method ProcessTaggingTask(cfg: Config, answer: bool) returns (outcome: Outcome, shown: Option<string>, raised: bool)
      requires Valid() && tasks != []
      modifies this`store, this`tasks, this`commands
      ensures Valid()
      ensures tasks == old(tasks)[1..]
      ensures outcome == Gate(cfg, old(tasks)[0], answer)
      ensures outcome != GateAsWritten(cfg, old(tasks)[0], answer) ==>
                cfg.doNothing && cfg.quiet && outcome == WouldHaveApplied && GateAsWritten(cfg, old(tasks)[0], answer) == Applied
      ensures shown == ShownPrompt(cfg, old(tasks)[0])
      ensures outcome != Applied ==> store == old(store) && commands == old(commands) && !raised
      ensures outcome == Applied ==>
        && store == ApplyAll(old(store), old(tasks)[0].updates).store
        && commands == old(commands) + ApplyAll(old(store), old(tasks)[0].updates).commands
        && raised == ApplyAll(old(store), old(tasks)[0].updates).raised
    {
      var t := tasks[0];
      assert RegisteredIn(store, t);
      tasks := tasks[1..];
      if |t.updates| == 0 {
        return NameError, None, false;
      }
      if t.isComplex && cfg.noComplex {
        return SkippedComplex, None, false;
      }
      shown := None;
      if t.isComplex || !cfg.autoApplySimple {
        shown := Some(Prompt(t));
        if !cfg.doNothing && !answer {
          return Declined, shown, false;
        }
      }
      if cfg.doNothing {
        return WouldHaveApplied, shown, false;
      }
      raised := ApplyUpdates(t.updates);
      outcome := Applied;
    }

    /** One non-empty value into the count dictionary: raise its count, or
        insert it with count 1 (which also appends it to the keys). */
    static method CountValue(ghost vals: seq<string>, keys: seq<string>, counts: map<string, nat>, v: string)
      returns (keys': seq<string>, counts': map<string, nat>)
      requires v != ""
      requires keys == Distinct(vals) && counts == Counts(vals)
      ensures keys' == Distinct(vals + [v]) && counts' == Counts(vals + [v])
    {
      CountStep(vals, v);
      if v in counts {
        keys', counts' := keys, counts[v := counts[v] + 1];
      } else {
        keys', counts' := keys + [v], counts[v := 1];
      }
    }

    /** The tally loop of `processFolder` for one field: the distinct values in
        order of first appearance, their counts, and the records lacking it. */
    static method Tally(metas: seq<Metadata>, f: Field) returns (keys: seq<string>, counts: map<string, nat>, missing: seq<Metadata>)
      ensures keys == Distinct(Values(metas, f))
      ensures counts == Counts(Values(metas, f))
      ensures missing == Missing(metas, f)
    {
      keys, counts, missing := [], map[], [];
      ghost var vals: seq<string> := [];
      var i := 0;
      while i < |metas|
        invariant 0 <= i <= |metas|
        invariant vals == Values(metas[..i], f)
        invariant keys == Distinct(vals)
        invariant counts == Counts(vals)
        invariant missing == Missing(metas[..i], f)
      {
        var v := FieldOf(metas[i], f);
        TallyStep(metas, i, f);
        if v == "" {
          missing := missing + [metas[i]];
          CountStep(vals, v);
        } else {
          keys, counts := CountValue(vals, keys, counts, v);
        }
        vals := vals + [v];
        i := i + 1;
      }
      assert metas[..i] == metas;
    }
  }
}
