/** findbadnames.py: the checks run on every file and folder name of the
    archive, in order, each failing check counted as one issue and the
    first one ending the checks of that name; the names that pass every
    check are counted as good. */
module BadNames {
  import opened Wrappers
  import opened Text

  /** The issue names the script prints. */
  datatype ErrorKind =
    | BadCharacter
    | HiddenFile
    | StartsWithPonyfmExclusive
    | ExtraBlankSpaces
    | ArchiveArtist
    | AudiotoolCom
    | StartsWithNewgrounds
    | DuplicateFolderReducedName
    | UnexpectedExtension
    | StartsWithBonusTrack
    | ArtistInFilename
    | EndsWithDash
    | TwentyPercentBroken
    | FeatNotInParens

  /** One `errorName: path` line. */
  datatype Report = Report(error: ErrorKind, path: string)

  /** A rename the script performs: from the first path to the second. */
  type Rename = (string, string)

  /** One name of the walk: the directory it sits in, its name, whether it
      is a file, and what the file system answers about it. `isDupe` is the
      answer of `existsDupe` for a file; `siblings` are the entries of the
      folder's parent directory that `checkFolderDupes` compares against. */
  datatype Entry = Entry(root: string, name: string, isFile: bool, isDupe: bool, siblings: seq<string>)

  const BadChars: string := "><:?*|\\"

  /** The markers of a featured artist written outside brackets. */
  const FeatMarkers: seq<string> := [" - ft. ", " - ft ", " - feat. ", " - feat "]

  // ---------------------------------------------------------------------
  // Paths

  /** `os.path.basename` */
  function PathBase(p: string): (r: string)
    ensures '/' !in r
  {
    var k := LastIndexOf(p, '/');
    LastIndexOfSpec(p, '/');
    p[k + 1..]
  }

  /** `p` without its trailing slashes. */
  function StripSlashes(p: string): (r: string)
    ensures StartsWith(p, r)
    ensures r == [] || r[|r| - 1] != '/'
  {
    if p != [] && p[|p| - 1] == '/' then StripSlashes(p[..|p| - 1]) else p
  }

  function SrcPath(e: Entry): string {
    e.root + "/" + e.name
  }

  function BaseName(e: Entry): string {
    PathBase(SrcPath(e))
  }

  /** `os.path.basename(srcPath).rsplit('.', 1)[0]` */
  function BaseFileName(e: Entry): string {
    BeforeLastDot(BaseName(e))
  }

  /** `os.path.basename(os.path.dirname(srcPath))`: the folder's own name. */
  function ParentName(e: Entry): string {
    PathBase(StripSlashes(e.root))
  }

  /** The base name of a path is what follows its last slash. */
  lemma PathBaseSpec(dir: string, name: string)
    requires '/' !in name
    ensures PathBase(dir + "/" + name) == name
  {
    var p := dir + "/" + name;
    LastIndexOfSpec(p, '/');
    var k := LastIndexOf(p, '/');
    assert p[|dir|] == '/';
    assert k == |dir|;
    assert p[k + 1..] == name;
  }

  // ---------------------------------------------------------------------
  // The checks as functions: the report of the first check that fails

  /** `name.replace('[', '').replace('(', '').replace('{', '')` */
  function Unbracketed(name: string): string {
    RemoveChar(RemoveChar(RemoveChar(name, '['), '('), '{')
  }

  predicate HasBadChar(name: string) {
    exists k :: 0 <= k < |BadChars| && BadChars[k] in name
  }

  /** `commonChecks` */
  function CommonCheck(srcPath: string, baseName: string): Option<Report> {
    if HasBadChar(baseName) then Some(Report(BadCharacter, srcPath))
    else if StartsWith(baseName, ".") then Some(Report(HiddenFile, srcPath))
    else if StartsWith(Lower(Unbracketed(baseName)), "pony.fm exclusive") then Some(Report(StartsWithPonyfmExclusive, srcPath))
    else if StartsWith(baseName, " ") || EndsWith(baseName, " ") || EndsWith(srcPath, " ") then Some(Report(ExtraBlankSpaces, "\"" + srcPath + "\""))
    else None
  }

  /** `name.replace(' ', '').replace('.', '').lower()` */
  function Reduced(name: string): string {
    Lower(RemoveChar(RemoveChar(name, ' '), '.'))
  }

  /** The first sibling other than the folder itself whose reduced name is
      the folder's, reported with both names. */
  function FolderDupe(srcPath: string, siblings: seq<string>): (r: Option<Report>)
    ensures r.Some? ==> r.value.error == DuplicateFolderReducedName
  {
    if siblings == [] then None
    else
      var baseName := PathBase(srcPath);
      if siblings[0] != baseName && Reduced(siblings[0]) == Reduced(baseName) then
        Some(Report(DuplicateFolderReducedName, srcPath + " /// " + siblings[0]))
      else FolderDupe(srcPath, siblings[1..])
  }

  /** `sibling` is another entry with the folder's reduced name. */
  predicate ReducedDupe(baseName: string, sibling: string) {
    sibling != baseName && Reduced(sibling) == Reduced(baseName)
  }

  /** A duplicate is reported exactly when some sibling has the reduced
      name. */
  lemma {:induction false} FolderDupeFound(srcPath: string, siblings: seq<string>)
    ensures FolderDupe(srcPath, siblings).Some? <==> exists k :: 0 <= k < |siblings| && ReducedDupe(PathBase(srcPath), siblings[k])
  {
    if siblings != [] {
      FolderDupeFound(srcPath, siblings[1..]);
      if exists k :: 0 <= k < |siblings| && ReducedDupe(PathBase(srcPath), siblings[k]) {
        var k :| 0 <= k < |siblings| && ReducedDupe(PathBase(srcPath), siblings[k]);
        if k > 0 {
          assert siblings[1..][k - 1] == siblings[k];
        }
      }
      if exists k :: 0 <= k < |siblings[1..]| && ReducedDupe(PathBase(srcPath), siblings[1..][k]) {
        var k :| 0 <= k < |siblings[1..]| && ReducedDupe(PathBase(srcPath), siblings[1..][k]);
        assert siblings[k + 1] == siblings[1..][k];
      }
    }
  }

  /** The report names the first sibling with the reduced name. */
  lemma {:induction false} FolderDupeFirst(srcPath: string, siblings: seq<string>)
    ensures FolderDupe(srcPath, siblings).Some? ==> exists k: nat :: FirstDupeAt(srcPath, siblings, k)
  {
    if siblings != [] {
      if ReducedDupe(PathBase(srcPath), siblings[0]) {
        assert FirstDupeAt(srcPath, siblings, 0);
      } else if FolderDupe(srcPath, siblings).Some? {
        FolderDupeFirst(srcPath, siblings[1..]);
        var k: nat :| FirstDupeAt(srcPath, siblings[1..], k);
        assert FirstDupeAt(srcPath, siblings, k + 1) by {
          forall m | 0 <= m < k + 1 ensures !ReducedDupe(PathBase(srcPath), siblings[m]) {
            if m > 0 {
              assert siblings[m] == siblings[1..][m - 1];
            }
          }
        }
      }
    }
  }

  /** The report names sibling `k`, and no sibling before it is a duplicate. */
  predicate FirstDupeAt(srcPath: string, siblings: seq<string>, k: nat) {
    && k < |siblings|
    && ReducedDupe(PathBase(srcPath), siblings[k])
    && (forall m :: 0 <= m < k ==> !ReducedDupe(PathBase(srcPath), siblings[m]))
    && FolderDupe(srcPath, siblings) == Some(Report(DuplicateFolderReducedName, srcPath + " /// " + siblings[k]))
  }

  /** A space or a dot anywhere does not change the reduced name. */
  lemma ReducedIgnores(a: string, b: string, c: char)
    requires c == ' ' || c == '.'
    ensures Reduced(a + [c] + b) == Reduced(a + b)
  {
    RemoveCharConcat(a + [c], b, ' ');
    RemoveCharConcat(a, [c], ' ');
    RemoveCharConcat(a, b, ' ');
    var x, y := RemoveChar(a, ' '), RemoveChar(b, ' ');
    if c == ' ' {
      assert RemoveChar([c], ' ') == [];
      assert x + [] == x;
    } else {
      assert RemoveChar([c], ' ') == [c];
      RemoveCharConcat(x + [c], y, '.');
      RemoveCharConcat(x, [c], '.');
      RemoveCharConcat(x, y, '.');
      assert RemoveChar([c], '.') == [];
      assert RemoveChar(x, '.') + [] == RemoveChar(x, '.');
    }
  }

  /** `checkFolderDupes` as written: on a duplicate it calls `showError`
      with one argument where two are required, so Python raises a
      TypeError before anything is counted; the surrounding `except`
      prints the exception and the function answers True. The answer and
      the issues counted, in either case. */
  function CheckFolderDupesAsWritten(srcPath: string, siblings: seq<string>): (r: (bool, seq<Report>))
    ensures r.0 && r.1 == []
  {
    match FolderDupe(srcPath, siblings)
    case Some(_) => (true, [])
    case None => (true, [])
  }

  /** A folder `a b` next to a folder `ab` passes the duplicate check as
      written, and is reported by the intended check. */
  lemma DuplicateFolderMissed(parent: string, a: string, b: string)
    requires '/' !in a && '/' !in b
    ensures CheckFolderDupesAsWritten(parent + "/" + (a + " " + b), [a + b]) == (true, [])
    ensures FolderDupe(parent + "/" + (a + " " + b), [a + b]) == Some(Report(DuplicateFolderReducedName, parent + "/" + (a + " " + b) + " /// " + (a + b)))
  {
    assert ReducedDupe(a + " " + b, a + b) by {
      ReducedIgnores(a, b, ' ');
      assert |a + " " + b| != |a + b|;
    }
    PathBaseSpec(parent, a + " " + b);
  }

  /** `folderChecks`, with the duplicate check reporting as intended. */
  function FolderCheck(srcPath: string, baseName: string, siblings: seq<string>): Option<Report> {
    if EndsWith(srcPath, "Archive") then Some(Report(ArchiveArtist, srcPath))
    else if Contains(srcPath, "audiotool.com") then Some(Report(AudiotoolCom, srcPath))
    else if StartsWith(Lower(baseName), "newgrounds audio portal") then Some(Report(StartsWithNewgrounds, srcPath))
    else FolderDupe(srcPath, siblings)
  }

  /** `folderChecks` as written: the duplicate test never reports (see
      `CheckFolderDupesAsWritten`), so only the first three tests can fail
      a folder. */
  function FolderCheckAsWritten(srcPath: string, baseName: string, siblings: seq<string>): (r: Option<Report>)
    ensures r.Some? ==> r.value.error != DuplicateFolderReducedName && r.value.path == srcPath
    ensures r.Some? ==> r == FolderCheck(srcPath, baseName, siblings)
  {
    if EndsWith(srcPath, "Archive") then Some(Report(ArchiveArtist, srcPath))
    else if Contains(srcPath, "audiotool.com") then Some(Report(AudiotoolCom, srcPath))
    else if StartsWith(Lower(baseName), "newgrounds audio portal") then Some(Report(StartsWithNewgrounds, srcPath))
    else if CheckFolderDupesAsWritten(srcPath, siblings).0 then None
    else FolderDupe(srcPath, siblings)
  }

  /** The intended folder checks differ from the written ones exactly for a
      folder that passes the first three tests and has a sibling with the
      same reduced name: the intended checks report it, the written ones
      pass it. */
  lemma FolderRulesDiffer(srcPath: string, baseName: string, siblings: seq<string>)
    ensures FolderDupe(srcPath, siblings).None? ==> FolderCheck(srcPath, baseName, siblings) == FolderCheckAsWritten(srcPath, baseName, siblings)
    ensures FolderCheck(srcPath, baseName, siblings) != FolderCheckAsWritten(srcPath, baseName, siblings) <==>
              FolderCheckAsWritten(srcPath, baseName, siblings).None? && FolderDupe(srcPath, siblings).Some?
  {
  }

  predicate HasAudioExtension(srcPath: string) {
    EndsWith(srcPath, ".mp3") || EndsWith(srcPath, ".flac") || EndsWith(srcPath, ".opus")
  }

  predicate FeatOutsideParens(baseName: string) {
    exists k :: 0 <= k < |FeatMarkers| && Contains(Lower(baseName), FeatMarkers[k])
  }

  /** `fileChecks` after the duplicate test. */
  function FileCheck(srcPath: string, baseName: string, baseFileName: string, parentName: string): Option<Report> {
    if !HasAudioExtension(srcPath) then Some(Report(UnexpectedExtension, srcPath))
    else if StartsWith(Lower(Unbracketed(baseName)), "bonus track") then Some(Report(StartsWithBonusTrack, srcPath))
    else if StartsWith(baseFileName, parentName + " -") then Some(Report(ArtistInFilename, srcPath))
    else if EndsWith(baseFileName, "-") then Some(Report(EndsWithDash, srcPath))
    else if Contains(baseName, "20- ") then Some(Report(TwentyPercentBroken, srcPath))
    else if FeatOutsideParens(baseName) then Some(Report(FeatNotInParens, srcPath))
    else None
  }

  function Listed<T>(o: Option<T>): seq<T> {
    if o.Some? then [o.value] else []
  }

  // ---------------------------------------------------------------------
  // The dash rewrite

  /** The new name of a file whose name before the extension ends in `-`:
      with no other dash, every dash is dropped; with exactly two dashes,
      the text between the first and the last dash of the whole name goes
      in brackets; otherwise the file keeps its name. */
  function DashRewrite(baseName: string, baseFileName: string): Option<string>
    requires StartsWith(baseName, baseFileName) && EndsWith(baseFileName, "-")
  {
    if '-' !in baseFileName[..|baseFileName| - 1] then Some(RemoveChar(baseName, '-'))
    else if CountChar(baseFileName, '-') == 2 then
      IndexOfSpec(baseName, '-');
      assert baseName[|baseFileName| - 1] == '-';
      LastIndexOfSpec(baseName, '-');
      var pos1 := IndexOf(baseName, '-');
      var pos2 := LastIndexOf(baseName, '-');
      // Python slices an empty middle when the two positions meet
      var middle := if pos1 + 1 <= pos2 then baseName[pos1 + 1..pos2] else "";
      Some(baseName[..pos1] + "[" + middle + "]" + baseName[pos2 + 1..])
    else None
  }

  /** With no dash before the trailing one, the new name is the old one
      without any dash, everything else kept. */
  lemma DashDropped(baseName: string, baseFileName: string)
    requires StartsWith(baseName, baseFileName) && EndsWith(baseFileName, "-")
    requires '-' !in baseFileName[..|baseFileName| - 1]
    ensures DashRewrite(baseName, baseFileName).Some?
    ensures '-' !in DashRewrite(baseName, baseFileName).value
    ensures forall x :: x != '-' ==> (x in DashRewrite(baseName, baseFileName).value <==> x in baseName)
  {
    RemoveCharSpec(baseName, '-');
  }

  /** A name with exactly its two dashes: the new name is the old one with
      the first dash turned into `[` and the second into `]`. */
  lemma {:induction false} DashToBrackets(baseName: string, baseFileName: string)
    requires StartsWith(baseName, baseFileName) && EndsWith(baseFileName, "-")
    requires CountChar(baseFileName, '-') == 2 && CountChar(baseName, '-') == 2
    ensures DashRewrite(baseName, baseFileName).Some?
    ensures exists before, middle, after :: BracketedAt(baseName, DashRewrite(baseName, baseFileName).value, before, middle, after)
  {
    DashPositions(baseName, baseFileName);
    var pos1 := IndexOf(baseName, '-');
    var pos2 := LastIndexOf(baseName, '-');
    var before, middle, after := baseName[..pos1], baseName[pos1 + 1..pos2], baseName[pos2 + 1..];
    SplitAtTwo(baseName, pos1, pos2);
    CountTwoDashes(before, middle, after);
    assert DashRewrite(baseName, baseFileName).value == before + "[" + middle + "]" + after;
    BracketedWitness(baseName, DashRewrite(baseName, baseFileName).value, before, middle, after);
  }

  /** A dash before the trailing one: the first and the last dash of the
      whole name are two different ones. */
  lemma DashPositions(baseName: string, baseFileName: string)
    requires StartsWith(baseName, baseFileName) && EndsWith(baseFileName, "-")
    requires CountChar(baseFileName, '-') == 2
    ensures '-' in baseFileName[..|baseFileName| - 1]
    ensures 0 <= IndexOf(baseName, '-') < LastIndexOf(baseName, '-')
    ensures baseName[IndexOf(baseName, '-')] == '-' && '-' !in baseName[..IndexOf(baseName, '-')]
    ensures baseName[LastIndexOf(baseName, '-')] == '-' && '-' !in baseName[LastIndexOf(baseName, '-') + 1..]
  {
    var n := |baseFileName|;
    assert '-' in baseFileName[..n - 1] by {
      assert baseFileName == baseFileName[..n - 1] + "-";
      CountCharConcat(baseFileName[..n - 1], "-", '-');
    }
    IndexOfSpec(baseName, '-');
    LastIndexOfSpec(baseName, '-');
    assert baseName[n - 1] == '-';
    var j :| 0 <= j < n - 1 && baseFileName[..n - 1][j] == '-';
    assert baseName[j] == '-';
  }

  lemma SplitAtTwo(s: string, i: nat, j: nat)
    requires i < j < |s| && s[i] == '-' && s[j] == '-'
    ensures s == s[..i] + "-" + s[i + 1..j] + "-" + s[j + 1..]
  {
    assert s == s[..i] + [s[i]] + s[i + 1..j] + [s[j]] + s[j + 1..];
  }

  lemma CountTwoDashes(before: string, middle: string, after: string)
    ensures CountChar(before + "-" + middle + "-" + after, '-') == CountChar(before, '-') + CountChar(middle, '-') + CountChar(after, '-') + 2
  {
    CountCharConcat(before + "-" + middle + "-", after, '-');
    CountCharConcat(before + "-" + middle, "-", '-');
    CountCharConcat(before + "-", middle, '-');
    CountCharConcat(before, "-", '-');
  }

  lemma BracketedWitness(baseName: string, fixed: string, before: string, middle: string, after: string)
    requires BracketedAt(baseName, fixed, before, middle, after)
    ensures exists b, m, a :: BracketedAt(baseName, fixed, b, m, a)
  {
  }

  /** `baseName` has its only two dashes around `middle`, and `fixed` has
      brackets in their place. */
  predicate BracketedAt(baseName: string, fixed: string, before: string, middle: string, after: string) {
    && '-' !in before && '-' !in middle && '-' !in after
    && baseName == before + "-" + middle + "-" + after
    && fixed == before + "[" + middle + "]" + after
  }

  // ---------------------------------------------------------------------
  // One name, start to finish

  /** A file the duplicate test rejects: no report and no good count. */
  predicate SilentlySkipped(e: Entry) {
    CommonCheck(SrcPath(e), BaseName(e)).None? && e.isFile && e.isDupe
  }

  /** The issue reported for the name, if any. */
  function EntryReports(e: Entry): (r: seq<Report>)
    ensures |r| <= 1
  {
    var common := CommonCheck(SrcPath(e), BaseName(e));
    if common.Some? then [common.value]
    else if e.isFile then (if e.isDupe then [] else Listed(FileCheck(SrcPath(e), BaseName(e), BaseFileName(e), ParentName(e))))
    else Listed(FolderCheck(SrcPath(e), BaseName(e), e.siblings))
  }

  /** Whether the name counts as good. */
  predicate EntryGood(e: Entry) {
    && CommonCheck(SrcPath(e), BaseName(e)).None?
    && if e.isFile then !e.isDupe && FileCheck(SrcPath(e), BaseName(e), BaseFileName(e), ParentName(e)).None?
       else FolderCheck(SrcPath(e), BaseName(e), e.siblings).None?
  }

  /** The rename performed for a file reported as ending with a dash. */
  function EntryRenames(e: Entry): seq<Rename> {
    if CommonCheck(SrcPath(e), BaseName(e)).None? && e.isFile && !e.isDupe then DashRenames(e) else []
  }

  /** Every name is either counted good or reported once, except a file
      the duplicate test rejects, which is neither. */
  lemma EntryCountedOnce(e: Entry)
    ensures SilentlySkipped(e) ==> EntryReports(e) == [] && !EntryGood(e)
    ensures !SilentlySkipped(e) ==> |EntryReports(e)| + (if EntryGood(e) then 1 else 0) == 1
  {
  }

  /** A name counted as good has none of the forbidden characters, does
      not start with a dot or a blank and does not end with a blank; a good
      file also has an audio extension, no trailing dash before it and no
      featured artist outside brackets. */
  lemma GoodNameShape(e: Entry)
    requires EntryGood(e)
    ensures forall k :: 0 <= k < |BadChars| ==> BadChars[k] !in BaseName(e)
    ensures !StartsWith(BaseName(e), ".") && !StartsWith(BaseName(e), " ") && !EndsWith(BaseName(e), " ")
    ensures e.isFile ==> HasAudioExtension(SrcPath(e)) && !EndsWith(BaseFileName(e), "-")
    ensures e.isFile ==> forall k :: 0 <= k < |FeatMarkers| ==> !Contains(Lower(BaseName(e)), FeatMarkers[k])
  {
    CommonCheckPassed(SrcPath(e), BaseName(e));
    if e.isFile {
      FileCheckPassed(SrcPath(e), BaseName(e), BaseFileName(e), ParentName(e));
    }
  }

  /** What a name that passes the common checks looks like. */
  lemma CommonCheckPassed(srcPath: string, baseName: string)
    requires CommonCheck(srcPath, baseName).None?
    ensures forall k :: 0 <= k < |BadChars| ==> BadChars[k] !in baseName
    ensures !StartsWith(baseName, ".") && !StartsWith(baseName, " ") && !EndsWith(baseName, " ")
  {
    assert !HasBadChar(baseName);
  }

  /** What a file name that passes the file checks looks like. */
  lemma FileCheckPassed(srcPath: string, baseName: string, baseFileName: string, parentName: string)
    requires FileCheck(srcPath, baseName, baseFileName, parentName).None?
    ensures HasAudioExtension(srcPath) && !EndsWith(baseFileName, "-")
    ensures forall k :: 0 <= k < |FeatMarkers| ==> !Contains(Lower(baseName), FeatMarkers[k])
  {
    assert !FeatOutsideParens(baseName);
  }

  // ---------------------------------------------------------------------
  // The whole walk

  /** The pieces `f` gives for each element, in order. */
  function Flatten<A, B>(xs: seq<A>, f: A -> seq<B>): seq<B> {
    if xs == [] then [] else Flatten(xs[..|xs| - 1], f) + f(xs[|xs| - 1])
  }

  /** The elements that satisfy `p`. */
  function CountIf<A>(xs: seq<A>, p: A -> bool): (r: nat)
    ensures r <= |xs|
  {
    if xs == [] then 0 else CountIf(xs[..|xs| - 1], p) + if p(xs[|xs| - 1]) then 1 else 0
  }

  function TreeGood(entries: seq<Entry>): (r: nat)
    ensures r <= |entries|
  {
    CountIf(entries, EntryGood)
  }

  function TreeReports(entries: seq<Entry>): seq<Report> {
    Flatten(entries, EntryReports)
  }

  function TreeRenames(entries: seq<Entry>): seq<Rename> {
    Flatten(entries, EntryRenames)
  }

  function Skipped(entries: seq<Entry>): (r: nat)
    ensures r <= |entries|
  {
    CountIf(entries, SilentlySkipped)
  }

  // The walk up to one more name.

  lemma FlattenStep<A, B>(xs: seq<A>, i: nat, f: A -> seq<B>, acc0: seq<B>, acc: seq<B>)
    requires i < |xs|
    requires acc == acc0 + Flatten(xs[..i], f) + f(xs[i])
    ensures acc == acc0 + Flatten(xs[..i + 1], f)
  {
    assert xs[..i + 1][..i] == xs[..i];
  }

  lemma CountStep<A>(xs: seq<A>, i: nat, p: A -> bool, n0: nat, n: nat)
    requires i < |xs|
    requires n == n0 + CountIf(xs[..i], p) + (if p(xs[i]) then 1 else 0)
    ensures n == n0 + CountIf(xs[..i + 1], p)
  {
    assert xs[..i + 1][..i] == xs[..i];
  }

  /** The total the script prints, good plus bad, is the number of names
      walked less the files the duplicate test rejected. */
  lemma {:induction false} CheckedTotal(entries: seq<Entry>)
    ensures TreeGood(entries) + |TreeReports(entries)| == |entries| - Skipped(entries)
  {
    if entries != [] {
      CheckedTotal(entries[..|entries| - 1]);
      EntryCountedOnce(entries[|entries| - 1]);
    }
  }

  /** Without duplicate files every name is counted exactly once. */
  lemma {:induction false} NoDupesAllCounted(entries: seq<Entry>)
    requires forall i :: 0 <= i < |entries| ==> !entries[i].isDupe
    ensures TreeGood(entries) + |TreeReports(entries)| == |entries|
  {
    if entries != [] {
      NoDupesAllCounted(entries[..|entries| - 1]);
      EntryCountedOnce(entries[|entries| - 1]);
    }
  }

  // ---------------------------------------------------------------------
  // The script's state

  class NameAudit {
    /** `GOOD_NAMES_COUNT` and `BAD_NAMES_COUNT` */
    var goodNames: nat
    var badNames: nat
    /** The issue lines printed, in order. */
    var reports: seq<Report>
    /** The renames performed, in order. */
    var renames: seq<Rename>

    /** Every counted issue was printed. */
    predicate Valid()
      reads this
    {
      badNames == |reports|
    }

    constructor ()
      ensures Valid()
      ensures goodNames == 0 && badNames == 0 && reports == [] && renames == []
    {
      goodNames := 0;
      badNames := 0;
      reports := [];
      renames := [];
    }

    /** `showError`: counts and prints one issue; the answer is always False. */
    method ShowError(error: ErrorKind, path: string) returns (ok: bool)
      requires Valid()
      modifies this
      ensures Valid() && !ok
      ensures badNames == old(badNames) + 1 && reports == old(reports) + [Report(error, path)]
      ensures goodNames == old(goodNames) && renames == old(renames)
    {
      badNames := badNames + 1;
      reports := reports + [Report(error, path)];
      return false;
    }

    /** `commonChecks` */
    method CommonChecks(srcPath: string, baseName: string) returns (ok: bool)
      requires Valid()
      modifies this
      ensures Valid() && (ok <==> CommonCheck(srcPath, baseName).None?)
      ensures reports == old(reports) + Listed(CommonCheck(srcPath, baseName))
      ensures goodNames == old(goodNames) && renames == old(renames)
    {
      for k := 0 to |BadChars|
        invariant forall m :: 0 <= m < k ==> BadChars[m] !in baseName
      {
        if BadChars[k] in baseName {
          ok := ShowError(BadCharacter, srcPath);
          return;
        }
      }
      if StartsWith(baseName, ".") {
        ok := ShowError(HiddenFile, srcPath);
        return;
      }
      if StartsWith(Lower(Unbracketed(baseName)), "pony.fm exclusive") {
        ok := ShowError(StartsWithPonyfmExclusive, srcPath);
        return;
      }
      if StartsWith(baseName, " ") || EndsWith(baseName, " ") || EndsWith(srcPath, " ") {
        ok := ShowError(ExtraBlankSpaces, "\"" + srcPath + "\"");
        return;
      }
      return true;
    }

    /** `checkFolderDupes` as intended: the first sibling with the same
        reduced name is reported, and the folder fails. */
    method CheckFolderDupes(srcPath: string, siblings: seq<string>) returns (ok: bool)
      requires Valid()
      modifies this
      ensures Valid() && (ok <==> FolderDupe(srcPath, siblings).None?)
      ensures reports == old(reports) + Listed(FolderDupe(srcPath, siblings))
      ensures goodNames == old(goodNames) && renames == old(renames)
    {
      var basepath := PathBase(srcPath);
      var reducedName := Reduced(basepath);
      for i := 0 to |siblings|
        invariant FolderDupe(srcPath, siblings) == FolderDupe(srcPath, siblings[i..])
      {
        assert siblings[i..][1..] == siblings[i + 1..];
        var entry := siblings[i];
        if entry != basepath && Reduced(entry) == reducedName {
          ok := ShowError(DuplicateFolderReducedName, srcPath + " /// " + entry);
          return;
        }
      }
      assert siblings[|siblings|..] == [];
      return true;
    }

    /** `folderChecks` */
    method FolderChecks(srcPath: string, baseName: string, siblings: seq<string>) returns (ok: bool)
      requires Valid()
      modifies this
      ensures Valid() && (ok <==> FolderCheck(srcPath, baseName, siblings).None?)
      ensures reports == old(reports) + Listed(FolderCheck(srcPath, baseName, siblings))
      ensures goodNames == old(goodNames) && renames == old(renames)
    {
      if EndsWith(srcPath, "Archive") {
        ok := ShowError(ArchiveArtist, srcPath);
      } else if Contains(srcPath, "audiotool.com") {
        ok := ShowError(AudiotoolCom, srcPath);
      } else if StartsWith(Lower(baseName), "newgrounds audio portal") {
        ok := ShowError(StartsWithNewgrounds, srcPath);
      } else {
        ok := CheckFolderDupes(srcPath, siblings);
      }
    }

    /** The test for featured artists outside brackets. */
    method CheckFeats(srcPath: string, baseName: string) returns (ok: bool)
      requires Valid()
      modifies this
      ensures Valid() && (ok <==> !FeatOutsideParens(baseName))
      ensures reports == old(reports) + if ok then [] else [Report(FeatNotInParens, srcPath)]
      ensures goodNames == old(goodNames) && renames == old(renames)
    {
      for k := 0 to |FeatMarkers|
        invariant forall m :: 0 <= m < k ==> !Contains(Lower(baseName), FeatMarkers[m])
      {
        if Contains(Lower(baseName), FeatMarkers[k]) {
          ok := ShowError(FeatNotInParens, srcPath);
          return;
        }
      }
      return true;
    }

    /** The rename of a name ending with a dash. */
    method RenameDashed(e: Entry)
      requires StartsWith(BaseName(e), BaseFileName(e)) && EndsWith(BaseFileName(e), "-")
      modifies this
      ensures renames == old(renames) + (var fixed := DashRewrite(BaseName(e), BaseFileName(e)); if fixed.Some? then [(SrcPath(e), e.root + "/" + fixed.value)] else [])
      ensures goodNames == old(goodNames) && badNames == old(badNames) && reports == old(reports)
    {
      var fixed := DashRewrite(BaseName(e), BaseFileName(e));
      if fixed.Some? {
        renames := renames + [(SrcPath(e), e.root + "/" + fixed.value)];
      }
    }

    /** `fileChecks` */
    method FileChecks(e: Entry) returns (ok: bool)
      requires Valid() && e.isFile
      modifies this
      ensures Valid()
      ensures ok <==> !e.isDupe && FileCheck(SrcPath(e), BaseName(e), BaseFileName(e), ParentName(e)).None?
      ensures reports == old(reports) + (if e.isDupe then [] else Listed(FileCheck(SrcPath(e), BaseName(e), BaseFileName(e), ParentName(e))))
      ensures goodNames == old(goodNames)
      ensures renames == old(renames) + if e.isDupe then [] else DashRenames(e)
    {
      if e.isDupe {
        return false;
      }
      var srcPath, baseName, baseFileName := SrcPath(e), BaseName(e), BaseFileName(e);
      if !HasAudioExtension(srcPath) {
        ok := ShowError(UnexpectedExtension, srcPath);
      } else if StartsWith(Lower(Unbracketed(baseName)), "bonus track") {
        ok := ShowError(StartsWithBonusTrack, srcPath);
      } else if StartsWith(baseFileName, ParentName(e) + " -") {
        ok := ShowError(ArtistInFilename, srcPath);
      } else if EndsWith(baseFileName, "-") {
        ok := ShowError(EndsWithDash, srcPath);
        BeforeLastDotSpec(baseName);
        RenameDashed(e);
      } else if Contains(baseName, "20- ") {
        ok := ShowError(TwentyPercentBroken, srcPath);
      } else {
        ok := CheckFeats(srcPath, baseName);
      }
    }

    /** The body of the walk for one name. */
    method CheckEntry(e: Entry)
      requires Valid()
      modifies this
      ensures Valid()
      ensures goodNames == old(goodNames) + (if EntryGood(e) then 1 else 0)
      ensures reports == old(reports) + EntryReports(e)
      ensures renames == old(renames) + EntryRenames(e)
    {
      var ok := CommonChecks(SrcPath(e), BaseName(e));
      if !ok {
        return;
      }
      if e.isFile {
        ok := FileChecks(e);
      } else {
        ok := FolderChecks(SrcPath(e), BaseName(e), e.siblings);
      }
      if ok {
        goodNames := goodNames + 1;
      }
    }

    /** One more name of the walk, after the names before it. */
    method CheckNext(entries: seq<Entry>, i: nat, ghost good0: nat, ghost reports0: seq<Report>, ghost renames0: seq<Rename>)
      requires Valid() && i < |entries|
      requires goodNames == good0 + TreeGood(entries[..i])
      requires reports == reports0 + TreeReports(entries[..i])
      requires renames == renames0 + TreeRenames(entries[..i])
      modifies this
      ensures Valid()
      ensures goodNames == good0 + TreeGood(entries[..i + 1])
      ensures reports == reports0 + TreeReports(entries[..i + 1])
      ensures renames == renames0 + TreeRenames(entries[..i + 1])
    {
      CheckEntry(entries[i]);
      CountStep(entries, i, EntryGood, good0, goodNames);
      FlattenStep(entries, i, EntryReports, reports0, reports);
      FlattenStep(entries, i, EntryRenames, renames0, renames);
    }

    /** The walk over all names, in the order `os.walk` gives them. */
    method CheckTree(entries: seq<Entry>)
      requires Valid()
      modifies this
      ensures Valid()
      ensures goodNames == old(goodNames) + TreeGood(entries)
      ensures reports == old(reports) + TreeReports(entries)
      ensures renames == old(renames) + TreeRenames(entries)
    {
      for i := 0 to |entries|
        invariant Valid()
        invariant goodNames == old(goodNames) + TreeGood(entries[..i])
        invariant reports == old(reports) + TreeReports(entries[..i])
        invariant renames == old(renames) + TreeRenames(entries[..i])
      {
        CheckNext(entries, i, old(goodNames), old(reports), old(renames));
      }
      assert entries[..|entries|] == entries;
    }
  }

  /** The file checks before the trailing dash pass and the name before
      the extension ends with a dash. */
  predicate DashReported(e: Entry) {
    && HasAudioExtension(SrcPath(e))
    && !StartsWith(Lower(Unbracketed(BaseName(e))), "bonus track")
    && !StartsWith(BaseFileName(e), ParentName(e) + " -")
    && EndsWith(BaseFileName(e), "-")
  }

  /** The rename of a file whose first failing file check is the trailing dash. */
  function DashRenames(e: Entry): seq<Rename> {
    if DashReported(e) then
      BeforeLastDotSpec(BaseName(e));
      var fixed := DashRewrite(BaseName(e), BaseFileName(e));
      if fixed.Some? then [(SrcPath(e), e.root + "/" + fixed.value)] else []
    else []
  }
}
