/** What the folder inference and the decision gate of autotag.py promise,
    stated over the functions of module AutoTag. */
module AutoTagProps {
  import opened Wrappers
  import opened Text
  import opened AutoTag

  // ---------------------------------------------------------------------
  // Reading tags

  /** A line is split at its first `=`: no `=`, no tag; otherwise the
      lowercased text before it names the tag and the unescaped rest is its value. */
  lemma LineTagSpec(line: string)
    ensures LineTag(line).None? <==> '=' !in line
    ensures LineTag(line).Some? ==> exists k ::
      && 0 <= k < |line| && line[k] == '=' && '=' !in line[..k]
      && LineTag(line).value == Tag(Lower(line[..k]), UnescapeEquals(line[k + 1..]))
  {
    IndexOfSpec(line, '=');
  }

  /** A line whose key is spelled in capitals still sets the lowercase tag. */
  lemma KeysCompareLowercased()
    ensures LineTag("ALBUM=Hi") == Some(Tag("album", "Hi"))
  {
    var line := "ALBUM=Hi";
    IndexOfSpec(line, '=');
    assert line[..5] == "ALBUM" && line[5] == '=' && line[6..] == "Hi";
    assert IndexOf(line, '=') == 5;
    LowerSpec("ALBUM");
    assert Lower("ALBUM") == "album";
    UnescapePlain("Hi");
  }

  /** Text without backslashes is left alone by the unescaping. */
  lemma {:induction false} UnescapePlain(s: string)
    requires '\\' !in s
    ensures UnescapeEquals(s) == s
  {
    if s != [] {
      UnescapePlain(s[1..]);
      assert s == [s[0]] + s[1..];
    }
  }

  // ---------------------------------------------------------------------
  // Title inference

  predicate Untitled(f: FileRead) {
    f.meta.Some? && f.meta.value.title == ""
  }

  /** How many scanned files are readable and carry no title. */
  function UntitledCount(files: seq<FileRead>): nat {
    if files == [] then 0
    else UntitledCount(files[..|files| - 1]) + if Untitled(files[|files| - 1]) then 1 else 0
  }

  /** Exactly one FILE task per readable file without a title, each a single
      title-only patch that is never a complex decision. */
  lemma {:induction false} TitleTasksSpec(files: seq<FileRead>)
    ensures |TitleTasks(files)| == UntitledCount(files)
    ensures forall t :: t in TitleTasks(files) ==>
      && t.kind == File && !t.isComplex && |t.updates| == 1
      && t.updates[0].title.Some? && t.updates[0].artist.None? && t.updates[0].album.None?
    ensures forall k :: 0 <= k < |files| && Untitled(files[k]) ==>
      TitleTask(files[k].name, files[k].meta.value) in TitleTasks(files)
    decreases |files|
  {
    if files != [] {
      var init := files[..|files| - 1];
      TitleTasksSpec(init);
      assert TitleTasks(files) == TitleTasks(init) + FileTasks(files[|files| - 1]);
      forall k | 0 <= k < |files| && Untitled(files[k])
        ensures TitleTask(files[k].name, files[k].meta.value) in TitleTasks(files)
      {
        if k < |files| - 1 {
          assert files[k] == init[k];
        }
      }
    }
  }

  /** The new title is the file name without its last extension. */
  lemma TitleTaskDropsExtension(m: Metadata, stem: string, ext: string, k: nat)
    requires '.' !in ext
    requires k < |stem| && stem[k] != '.'
    ensures TitleTask(stem + "." + ext, m).updates == [MakeUpdateObject(m, Title, stem)]
  {
    SplitextDropsLastExtension(stem, ext, k);
  }

  /** Every regular file is counted, but only the readable ones yield a
      record: the two agree exactly when no regular file is unreadable. */
  lemma {:induction false} ScanReadable(dir: string, entries: seq<DirEntry>)
    ensures |Readable(Scan(dir, entries))| <= FileCount(entries)
    ensures |Readable(Scan(dir, entries))| == FileCount(entries) <==>
      forall i :: 0 <= i < |entries| && entries[i].isFile ==> entries[i].reading.Some?
    decreases |entries|
  {
    if entries != [] {
      ScanReadable(dir, entries[..|entries| - 1]);
      ReadableStep(dir, entries);
      AllReadableStep(entries);
    }
  }

  /** The last entry adds one record when it is a readable file, and one
      to the count when it is a file. */
  lemma ReadableStep(dir: string, entries: seq<DirEntry>)
    requires entries != []
    ensures var init, e := entries[..|entries| - 1], entries[|entries| - 1];
      && |Readable(Scan(dir, entries))| == |Readable(Scan(dir, init))| + (if e.isFile && e.reading.Some? then 1 else 0)
      && FileCount(entries) == FileCount(init) + (if e.isFile then 1 else 0)
  {
    var init, e := entries[..|entries| - 1], entries[|entries| - 1];
    var files := Scan(dir, init);
    if e.isFile {
      var f := ReadEntry(dir, e);
      assert Scan(dir, entries) == files + [f];
      assert (files + [f])[..|files|] == files;
      assert f.meta.Some? <==> e.reading.Some?;
    } else {
      assert Scan(dir, entries) == files;
    }
  }

  /** Every file readable: in the whole list iff in all but the last entry
      and in the last one. */
  lemma AllReadableStep(entries: seq<DirEntry>)
    requires entries != []
    ensures var init, e := entries[..|entries| - 1], entries[|entries| - 1];
      (forall i :: 0 <= i < |entries| && entries[i].isFile ==> entries[i].reading.Some?) <==>
      (forall i :: 0 <= i < |init| && init[i].isFile ==> init[i].reading.Some?) && (e.isFile ==> e.reading.Some?)
  {
    var init := entries[..|entries| - 1];
    assert forall i :: 0 <= i < |init| ==> init[i] == entries[i];
  }

  // ---------------------------------------------------------------------
  // The most common value

  /** Keys are appended as values first appear: the keys of a prefix start the keys of the whole. */
  lemma {:induction false} DistinctPrefix(vals: seq<string>, i: nat)
    requires i <= |vals|
    ensures |Distinct(vals[..i])| <= |Distinct(vals)|
    ensures Distinct(vals[..i]) == Distinct(vals)[..|Distinct(vals[..i])|]
    decreases |vals| - i
  {
    if i < |vals| {
      DistinctPrefix(vals, i + 1);
      var pre := vals[..i + 1];
      assert pre[..i] == vals[..i];
      assert pre[..|pre| - 1] == vals[..i];
    } else {
      assert vals[..i] == vals;
    }
  }

  /** A value seen before the first occurrence of `vals[i0]` is a key listed
      before it. */
  lemma EarlierValuesAreEarlierKeys(vals: seq<string>, i0: nat, j: nat, p: nat)
    requires i0 < |vals| && vals[i0] !in vals[..i0]
    requires j < i0 && vals[j] != ""
    requires p < |Distinct(vals)| && Distinct(vals)[p] == vals[i0]
    ensures exists q :: 0 <= q < p && Distinct(vals)[q] == vals[j]
  {
    var keys := Distinct(vals);
    var pre := Distinct(vals[..i0]);
    DistinctPrefix(vals, i0);
    DistinctMembers(vals[..i0]);
    assert vals[..i0][j] == vals[j];
    assert vals[j] in pre;
    var q :| 0 <= q < |pre| && pre[q] == vals[j];
    assert keys[q] == vals[j];
  }

  /** Ties go to the value seen first: every non-empty value occurring before
      the first occurrence of the chosen one occurs strictly less often. */
  lemma MostCommonFirstSeen(vals: seq<string>)
    requires Distinct(vals) != []
    ensures exists i ::
      && 0 <= i < |vals|
      && vals[i] == MostCommon(vals)
      && (forall j :: 0 <= j < i && vals[j] != "" ==> Occurrences(vals, vals[j]) < Occurrences(vals, MostCommon(vals)))
  {
    var r := MostCommon(vals);
    var keys := Distinct(vals);
    var p := ChosenKeyFirst(vals);
    IndexOfSeq(vals, r);
    var i0 :| 0 <= i0 < |vals| && vals[i0] == r && r !in vals[..i0];
    forall j | 0 <= j < i0 && vals[j] != "" ensures Occurrences(vals, vals[j]) < Occurrences(vals, r) {
      EarlierValuesAreEarlierKeys(vals, i0, j, p);
      var q :| 0 <= q < p && keys[q] == vals[j];
      assert KeysBefore(vals, p, q);
    }
  }

  /** Key `q`, listed before key `p`, occurs less often. */
  predicate KeysBefore(vals: seq<string>, p: nat, q: nat)
    requires p < |Distinct(vals)|
  {
    q < p ==> Occurrences(vals, Distinct(vals)[q]) < Occurrences(vals, Distinct(vals)[p])
  }

  /** The chosen value is a key, and every key before it occurs less often. */
  lemma ChosenKeyFirst(vals: seq<string>) returns (p: nat)
    requires Distinct(vals) != []
    ensures p < |Distinct(vals)| && Distinct(vals)[p] == MostCommon(vals)
    ensures forall q :: KeysBefore(vals, p, q)
  {
    var keys := Distinct(vals);
    var counts := Counts(vals);
    DistinctMembers(vals);
    CountsMembers(vals);
    TopKeySpec(keys, counts);
    p :| 0 <= p < |keys| && keys[p] == MostCommon(vals) && forall q :: 0 <= q < p ==> counts[keys[q]] < counts[keys[p]];
  }

  /** Some position holds the first occurrence of a value that occurs. */
  lemma {:induction false} IndexOfSeq(vals: seq<string>, v: string)
    requires v in vals
    ensures exists i :: 0 <= i < |vals| && vals[i] == v && v !in vals[..i]
    decreases |vals|
  {
    if vals[0] == v {
      assert vals[..0] == [];
    } else {
      var tail := vals[1..];
      IndexOfSeq(tail, v);
      var i :| 0 <= i < |tail| && tail[i] == v && v !in tail[..i];
      assert vals[i + 1] == v;
      assert vals[..i + 1] == [vals[0]] + tail[..i];
      assert v !in vals[..i + 1];
    }
  }

  /** More than one key means two different non-empty values occur. */
  lemma ManyKeysIffTwoValues(vals: seq<string>)
    ensures |Distinct(vals)| > 1 <==>
      exists i, j :: 0 <= i < |vals| && 0 <= j < |vals| && vals[i] != "" && vals[j] != "" && vals[i] != vals[j]
  {
    var keys := Distinct(vals);
    DistinctMembers(vals);
    if |keys| > 1 {
      assert keys[0] in vals && keys[1] in vals;
      var i :| 0 <= i < |vals| && vals[i] == keys[0];
      var j :| 0 <= j < |vals| && vals[j] == keys[1];
      assert vals[i] != vals[j];
    }
    if exists i, j :: 0 <= i < |vals| && 0 <= j < |vals| && vals[i] != "" && vals[j] != "" && vals[i] != vals[j] {
      var i, j :| 0 <= i < |vals| && 0 <= j < |vals| && vals[i] != "" && vals[j] != "" && vals[i] != vals[j];
      assert vals[i] in keys && vals[j] in keys;
    }
  }

  // ---------------------------------------------------------------------
  // Album and artist inference

  /** The album task is emitted iff some record lacks the album below the artist
      root. */
  lemma AlbumTaskEmitted(job: ParseJob, metas: seq<Metadata>)
    ensures AlbumTask(job, metas).Some? <==> Missing(metas, Album) != [] && job.folderRelPath != ""
  {
  }

  /** The album task holds one patch per record lacking the album, in scan
      order, all setting the same value. */
  lemma AlbumTaskPatches(job: ParseJob, metas: seq<Metadata>)
    requires AlbumTask(job, metas).Some?
    ensures var t := AlbumTask(job, metas).value;
      && t.kind == Folder
      && t.isComplex == AlbumChoice(job, metas).1
      && |t.updates| == |Missing(metas, Album)|
      && forall i :: 0 <= i < |t.updates| ==>
        && t.updates[i] == MakeUpdateObject(Missing(metas, Album)[i], Album, AlbumChoice(job, metas).0)
        && Missing(metas, Album)[i] in metas && Missing(metas, Album)[i].album == ""
  {
    var missing := Missing(metas, Album);
    assert AlbumTask(job, metas).value.updates == Updates(missing, Album, AlbumChoice(job, metas).0);
    MissingMembers(metas, Album);
    forall i | 0 <= i < |missing| ensures missing[i] in metas && missing[i].album == "" {
      assert missing[i] in missing;
      assert FieldOf(missing[i], Album) == "";
    }
  }

  /** The album chosen from existing tags is the most common one, and the
      decision is complex iff two different albums occur, tied or not. */
  lemma AlbumFromTags(job: ParseJob, metas: seq<Metadata>)
    requires Distinct(Values(metas, Album)) != []
    ensures var albums := Values(metas, Album);
      && AlbumChoice(job, metas).0 == MostCommon(albums)
      && (AlbumChoice(job, metas).1 <==>
        exists i, j :: 0 <= i < |albums| && 0 <= j < |albums| && albums[i] != "" && albums[j] != "" && albums[i] != albums[j])
  {
    ManyKeysIffTwoValues(Values(metas, Album));
  }

  /** Without any album tag, the folder path names the album, ` - ` standing
      for `/`; nested folders and the two special folders are complex. */
  lemma AlbumFromFolder(job: ParseJob, metas: seq<Metadata>)
    requires forall m :: m in metas ==> m.album == ""
    ensures AlbumChoice(job, metas).0 == ReplaceCharByString(job.folderRelPath, '/', " - ")
    ensures '/' !in AlbumChoice(job, metas).0
    ensures AlbumChoice(job, metas).1 <==>
      '/' in job.folderRelPath || job.folderRelPath == "Instrumentals" || job.folderRelPath == "A capellas"
  {
    var albums := Values(metas, Album);
    DistinctMembers(albums);
    ValuesSpec(metas, Album);
    forall v | v in albums ensures v == "" {
      var i :| 0 <= i < |albums| && albums[i] == v;
      assert metas[i] in metas;
    }
    if Distinct(albums) != [] {
      assert Distinct(albums)[0] in albums;
    }
  }

  /** The artist task is emitted iff some record lacks the artist at any depth. */
  lemma ArtistTaskEmitted(job: ParseJob, metas: seq<Metadata>)
    ensures ArtistTask(job, metas).Some? <==> Missing(metas, Artist) != []
  {
  }

  /** The artist task holds one patch per record lacking the artist, in scan
      order, all setting the same value. */
  lemma ArtistTaskPatches(job: ParseJob, metas: seq<Metadata>)
    requires ArtistTask(job, metas).Some?
    ensures var t := ArtistTask(job, metas).value;
      && t.kind == Folder
      && t.isComplex == ArtistChoice(job, metas).1
      && |t.updates| == |Missing(metas, Artist)|
      && forall i :: 0 <= i < |t.updates| ==>
        && t.updates[i] == MakeUpdateObject(Missing(metas, Artist)[i], Artist, ArtistChoice(job, metas).0)
        && Missing(metas, Artist)[i] in metas && Missing(metas, Artist)[i].artist == ""
  {
    var missing := Missing(metas, Artist);
    assert ArtistTask(job, metas).value.updates == Updates(missing, Artist, ArtistChoice(job, metas).0);
    MissingMembers(metas, Artist);
    forall i | 0 <= i < |missing| ensures missing[i] in metas && missing[i].artist == "" {
      assert missing[i] in missing;
      assert FieldOf(missing[i], Artist) == "";
    }
  }

  /** The artist is the most common tag, or the artist folder's name when no
      record has one; complex iff two different artists occur and the chosen
      one is not the folder's artist. */
  lemma ArtistChoiceSpec(job: ParseJob, metas: seq<Metadata>)
    ensures var artists := Values(metas, Artist);
      var (value, complex) := ArtistChoice(job, metas);
      && (Distinct(artists) != [] ==> value == MostCommon(artists))
      && (Distinct(artists) == [] ==> value == job.artist && !complex)
      && (complex <==>
        && value != job.artist
        && exists i, j :: 0 <= i < |artists| && 0 <= j < |artists| && artists[i] != "" && artists[j] != "" && artists[i] != artists[j])
  {
    ManyKeysIffTwoValues(Values(metas, Artist));
  }

  /** Four records of one album folder: albums `x`, `y`, `y` and one untagged. */
  function ExampleFolder(x: string, y: string): seq<Metadata> {
    [Metadata("a.mp3", "", x, ""), Metadata("b.mp3", "", y, ""),
     Metadata("c.mp3", "", y, ""), Metadata("d.mp3", "", "", "")]
  }

  lemma ExampleFolderTally(x: string, y: string)
    requires x != "" && y != ""
    ensures Values(ExampleFolder(x, y), Album) == [x, y, y, ""]
    ensures Missing(ExampleFolder(x, y), Album) == [ExampleFolder(x, y)[3]]
  {
    var metas := ExampleFolder(x, y);
    var p1 := [metas[0]];
    var p2 := p1 + [metas[1]];
    var p3 := p2 + [metas[2]];
    assert metas == p3 + [metas[3]];
    TallySnoc([], metas[0], Album);
    assert [] + [metas[0]] == p1;
    TallySnoc(p1, metas[1], Album);
    TallySnoc(p2, metas[2], Album);
    TallySnoc(p3, metas[3], Album);
  }

  /** One more record at the end of the folder. */
  lemma TallySnoc(metas: seq<Metadata>, m: Metadata, f: Field)
    ensures Values(metas + [m], f) == Values(metas, f) + [FieldOf(m, f)]
    ensures Missing(metas + [m], f) == Missing(metas, f) + (if FieldOf(m, f) == "" then [m] else [])
  {
    assert (metas + [m])[..|metas|] == metas;
  }

  lemma ExampleFolderCounts(x: string, y: string)
    requires x != y && x != "" && y != ""
    ensures Distinct([x, y, y, ""]) == [x, y]
    ensures Counts([x, y, y, ""]) == map[x := 1, y := 2]
  {
    CountStep([], x);
    CountStep([x], y);
    CountStep([x, y], y);
    CountStep([x, y, y], "");
    assert [] + [x] == [x] && [x] + [y] == [x, y] && [x, y] + [y] == [x, y, y];
    assert [x, y, y] + [""] == [x, y, y, ""];
  }

  /** "Complex" is not "tied": albums x, y, y have a clear winner, yet two
      different albums make the decision complex. */
  lemma UntiedTwoAlbumsAreComplex(job: ParseJob, x: string, y: string)
    requires x != y && x != "" && y != ""
    requires job.folderRelPath != ""
    ensures AlbumTask(job, ExampleFolder(x, y)).Some?
    ensures AlbumChoice(job, ExampleFolder(x, y)) == (y, true)
  {
    ExampleFolderTally(x, y);
    ExampleFolderCounts(x, y);
    assert TopKey([x, y], map[x := 1, y := 2]) == y by {
      assert [x, y][1..] == [y];
    }
  }

  // ---------------------------------------------------------------------
  // The decision gate

  /** Which outcome a task gets, both ways round. */
  lemma GateSpec(cfg: Config, t: TaggingTask, answer: bool)
    ensures Gate(cfg, t, answer) == NameError <==> |t.updates| == 0
    ensures Gate(cfg, t, answer) == SkippedComplex <==> |t.updates| > 0 && t.isComplex && cfg.noComplex
    ensures Gate(cfg, t, answer) == Declined <==> Asks(cfg, t) && !answer
    ensures Gate(cfg, t, answer) == WouldHaveApplied <==>
      |t.updates| > 0 && !(t.isComplex && cfg.noComplex) && cfg.doNothing
    ensures Gate(cfg, t, answer) == Applied <==>
      && |t.updates| > 0 && !(t.isComplex && cfg.noComplex)
      && (Asks(cfg, t) ==> answer)
      && !cfg.doNothing
  {
  }

  /** The album and artist tasks each patch at least one record. */
  lemma FolderLevelTasksNonEmpty(job: ParseJob, metas: seq<Metadata>)
    ensures forall t :: t in FolderLevelTasks(job, metas) ==> |t.updates| > 0
  {
    if metas != [] {
      var byAlbum, byArtist := AlbumTask(job, metas), ArtistTask(job, metas);
      if byAlbum.Some? {
        AlbumTaskEmitted(job, metas);
        assert byAlbum.value.updates == Updates(Missing(metas, Album), Album, AlbumChoice(job, metas).0);
      }
      if byArtist.Some? {
        ArtistTaskEmitted(job, metas);
        assert byArtist.value.updates == Updates(Missing(metas, Artist), Artist, ArtistChoice(job, metas).0);
      }
      assert FolderLevelTasks(job, metas) == OptionalTask(byAlbum) + OptionalTask(byArtist);
    }
  }

  /** Every title task patches exactly one record. */
  lemma {:induction false} TitleTasksNonEmpty(files: seq<FileRead>)
    ensures forall t :: t in TitleTasks(files) ==> |t.updates| == 1
    decreases |files|
  {
    if files != [] {
      TitleTasksNonEmpty(files[..|files| - 1]);
    }
  }

  /** Every task a folder queues patches at least one record, so the
      empty-task branch of the gate is never taken on the scanner's tasks. */
  lemma FolderTasksNonEmpty(job: ParseJob, files: seq<FileRead>)
    ensures forall t :: t in FolderTasks(job, files) ==> |t.updates| > 0
  {
    TitleTasksNonEmpty(files);
    FolderLevelTasksNonEmpty(job, Readable(files));
  }

  /** A dry run never reaches the writer. */
  lemma DryRunNeverApplies(cfg: Config, t: TaggingTask, answer: bool)
    requires cfg.doNothing
    ensures Gate(cfg, t, answer) != Applied
    ensures |t.updates| > 0 && !(t.isComplex && cfg.noComplex) ==> Gate(cfg, t, answer) == WouldHaveApplied
  {
  }

  /** The user is asked exactly when the prompt is printed outside a dry run;
      a declined or dry-run task never reaches the writer. */
  lemma PromptSpec(cfg: Config, t: TaggingTask, answer: bool)
    ensures Asks(cfg, t) <==> ShownPrompt(cfg, t).Some? && !cfg.doNothing
    ensures ShownPrompt(cfg, t).Some? ==> StartsWith(ShownPrompt(cfg, t).value, "Update ")
    ensures Gate(cfg, t, answer) == Applied && ShownPrompt(cfg, t).Some? ==> answer
  {
  }

  /** As written, a dry run that is also quiet skips the prompt and still
      applies, where the intended gate reports it only. */
  lemma QuietDryRunApplies(cfg: Config, t: TaggingTask, answer: bool)
    requires cfg.doNothing && cfg.quiet
    requires |t.updates| > 0 && !(t.isComplex && cfg.noComplex)
    ensures !Asks(cfg, t)
    ensures GateAsWritten(cfg, t, answer) == Applied
    ensures Gate(cfg, t, answer) == WouldHaveApplied
  {
  }

  /** The two gates differ only on a quiet dry run. */
  lemma GatesAgreeOutsideQuietDryRun(cfg: Config, t: TaggingTask, answer: bool)
    ensures GateAsWritten(cfg, t, answer) != Gate(cfg, t, answer) <==>
      cfg.doNothing && cfg.quiet && |t.updates| > 0 && !(t.isComplex && cfg.noComplex)
  {
  }

  /** With auto-apply on, a simple task is applied without asking, whatever the reply. */
  lemma SimpleTasksAutoApplied(cfg: Config, t: TaggingTask, answer: bool)
    requires cfg.autoApplySimple && !cfg.doNothing
    requires |t.updates| > 0 && !t.isComplex
    ensures !Asks(cfg, t)
    ensures Gate(cfg, t, answer) == Applied
  {
  }
}
