/** The title canonicalisers shared, with small differences, by diff_song_db.py
    and dlcoverart.py: the bracket-depth scanner, the character-class
    substitution, prefix and "feat." stripping, the apostrophe rule and the
    whitespace collapse, composed into the two canonical forms. */
module Titles {
  import opened Text

  // ---------------------------------------------------------------------
  // Brackets (`remove_parens` / `removeParens`)

  predicate IsOpen(c: char) { c == '(' || c == '[' || c == '{' }

  predicate IsClose(c: char) { c == ')' || c == ']' || c == '}' }

  /** Bracket depth after `s`: any opener counts up, any closer down. */
  function Depth(s: string): int {
    if s == [] then 0
    else Depth(s[..|s| - 1]) + (if IsOpen(s[|s| - 1]) then 1 else if IsClose(s[|s| - 1]) then -1 else 0)
  }

  /** Every prefix closes no more brackets than it opened, and all are closed at the end. */
  ghost predicate WellNested(s: string) {
    && (forall i :: 0 <= i <= |s| ==> Depth(s[..i]) >= 0)
    && Depth(s) == 0
  }

  /** The characters outside every bracket group, brackets excluded: what
      deleting each top-level group with its contents leaves. */
  function TopLevel(s: string): string {
    if s == [] then []
    else
      var c := s[|s| - 1];
      TopLevel(s[..|s| - 1]) + if Depth(s[..|s| - 1]) == 0 && !IsOpen(c) && !IsClose(c) then [c] else []
  }

  /** The scanner's variables `depth`, `result` and `lastStart`. */
  datatype ParenState = ParenState(depth: int, result: string, lastStart: nat)

  /** One character of the scan: an opener at depth 0 flushes the text since
      `lastStart`; a closer returning to depth 0 moves `lastStart` past it. */
  function ParenStep(st: ParenState, title: string, i: nat): (r: ParenState)
    requires i < |title| && st.lastStart <= i
    ensures r.lastStart <= i + 1
  {
    var c := title[i];
    if IsOpen(c) then
      ParenState(st.depth + 1, if st.depth == 0 then st.result + title[st.lastStart..i] else st.result, st.lastStart)
    else if IsClose(c) then
      ParenState(st.depth - 1, st.result, if st.depth - 1 == 0 then i + 1 else st.lastStart)
    else st
  }

  /** The scanner's state after the first `i` characters. */
  function ParenFold(title: string, i: nat): (r: ParenState)
    requires i <= |title|
    ensures r.lastStart <= i
  {
    if i == 0 then ParenState(0, "", 0) else ParenStep(ParenFold(title, i - 1), title, i - 1)
  }

  /** The scan's result before stripping: the tail since `lastStart` is kept
      only when the depth ends at zero. */
  function ParensRemoved(title: string): string {
    var st := ParenFold(title, |title|);
    if st.depth == 0 then st.result + title[st.lastStart..] else st.result
  }

  /** `remove_parens`: scan the title keeping the text outside top-level
      bracket groups, then strip it. */
  method RemoveParens(title: string) returns (r: string)
    ensures r == Strip(ParensRemoved(title))
  {
    var depth := 0;
    var result := "";
    var lastStart := 0;
    for i := 0 to |title|
      invariant ParenFold(title, i) == ParenState(depth, result, lastStart)
    {
      var c := title[i];
      if IsOpen(c) {
        if depth == 0 {
          result := result + title[lastStart..i];
        }
        depth := depth + 1;
      }
      if IsClose(c) {
        depth := depth - 1;
        if depth == 0 {
          lastStart := i + 1;
        }
      }
    }
    if depth == 0 {
      result := result + title[lastStart..];
    }
    r := Strip(result);
  }

  /** The scanner tracks the bracket depth. */
  lemma {:induction false} FoldDepth(title: string, i: nat)
    requires i <= |title|
    ensures ParenFold(title, i).depth == Depth(title[..i])
  {
    if i > 0 {
      FoldDepth(title, i - 1);
      assert title[..i][..i - 1] == title[..i - 1];
    }
  }

  /** On a prefix that never closes more than it opened, the scanner holds the
      top-level text so far: flushed into `result` inside a group, split
      between `result` and the pending tail at depth 0. */
  lemma {:induction false} FoldTopLevel(title: string, i: nat)
    requires i <= |title|
    requires forall j :: 0 <= j <= i ==> Depth(title[..j]) >= 0
    ensures var st := ParenFold(title, i);
      && (st.depth == 0 ==> st.result + title[st.lastStart..i] == TopLevel(title[..i]))
      && (st.depth > 0 ==> st.result == TopLevel(title[..i]))
  {
    if i > 0 {
      FoldTopLevel(title, i - 1);
      FoldDepth(title, i - 1);
      TopLevelCharStep(title, i, ParenFold(title, i - 1));
    }
  }

  /** One character of the scan keeps the relation between its state and
      the top-level text of the prefix. */
  lemma TopLevelCharStep(title: string, i: nat, st: ParenState)
    requires 0 < i <= |title| && st.lastStart <= i - 1
    requires st.depth == Depth(title[..i - 1]) >= 0 && Depth(title[..i]) >= 0
    requires st.depth == 0 ==> st.result + title[st.lastStart..i - 1] == TopLevel(title[..i - 1])
    requires st.depth > 0 ==> st.result == TopLevel(title[..i - 1])
    ensures var st' := ParenStep(st, title, i - 1);
      && (st'.depth == 0 ==> st'.result + title[st'.lastStart..i] == TopLevel(title[..i]))
      && (st'.depth > 0 ==> st'.result == TopLevel(title[..i]))
  {
    TopLevelStep(title, i);
    var c := title[i - 1];
    if !IsOpen(c) && !IsClose(c) && st.depth == 0 {
      assert title[st.lastStart..i] == title[st.lastStart..i - 1] + [c];
    }
  }

  /** `TopLevel` and `Depth` of a prefix one character longer. */
  lemma TopLevelStep(title: string, i: nat)
    requires 0 < i <= |title|
    ensures var c := title[i - 1];
      && TopLevel(title[..i]) == TopLevel(title[..i - 1]) + (if Depth(title[..i - 1]) == 0 && !IsOpen(c) && !IsClose(c) then [c] else [])
      && Depth(title[..i]) == Depth(title[..i - 1]) + (if IsOpen(c) then 1 else if IsClose(c) then -1 else 0)
  {
    assert title[..i][..i - 1] == title[..i - 1];
  }

  /** On well-nested input every top-level group is deleted with its
      contents, the surrounding text is kept in order, and the result is stripped. */
  lemma ParensRemovedWellNested(title: string)
    requires WellNested(title)
    ensures ParensRemoved(title) == TopLevel(title)
  {
    assert title[..|title|] == title;
    FoldTopLevel(title, |title|);
    FoldDepth(title, |title|);
  }

  /** While no closer comes, the scanner stays inside the group and adds nothing. */
  lemma {:induction false} FoldInsideGroup(title: string, k: nat, i: nat)
    requires k < i <= |title|
    requires ParenFold(title, k + 1).depth > 0
    requires forall j :: k < j < |title| ==> !IsClose(title[j])
    ensures ParenFold(title, i).depth > 0 && ParenFold(title, i).result == ParenFold(title, k + 1).result
  {
    if i > k + 1 {
      FoldInsideGroup(title, k, i - 1);
    }
  }

  /** A group left open at the end drops the tail after its opener: what
      remains is the top-level text before it. */
  lemma UnclosedTailDropped(title: string, k: nat)
    requires k < |title| && IsOpen(title[k])
    requires WellNested(title[..k])
    requires forall j :: k < j < |title| ==> !IsClose(title[j])
    ensures ParensRemoved(title) == TopLevel(title[..k])
  {
    forall j | 0 <= j <= k ensures Depth(title[..j]) >= 0 {
      assert title[..k][..j] == title[..j];
    }
    FoldTopLevel(title, k);
    FoldDepth(title, k);
    assert title[..k][..k] == title[..k];
    FoldInsideGroup(title, k, |title|);
  }

  /** The scan only keeps characters of the title. */
  lemma {:induction false} FoldChars(title: string, i: nat)
    requires i <= |title|
    ensures forall c :: c in ParenFold(title, i).result ==> c in title
  {
    if i > 0 {
      FoldChars(title, i - 1);
      var st := ParenFold(title, i - 1);
      forall c | c in ParenFold(title, i).result ensures c in title {
        if c !in st.result {
          assert c in title[st.lastStart..i - 1];
        }
      }
    }
  }

  lemma ParensRemovedChars(title: string)
    ensures forall c :: c in ParensRemoved(title) ==> c in title
  {
    FoldChars(title, |title|);
    var st := ParenFold(title, |title|);
    forall c | c in ParensRemoved(title) ensures c in title {
      if c !in st.result {
        assert c in title[st.lastStart..];
      }
    }
  }

  // ---------------------------------------------------------------------
  // Character classes (`simplify_charset` / `simplifyCharset`)

  /** The characters diff_song_db.py turns into spaces. */
  const SongDbSuperfluous: string := "\U{00B4}'\U{2019}!?*/\U{2044}\\\U{2605}-_:\"&.\U{3010}\U{3011}"

  /** The characters dlcoverart.py turns into spaces. */
  const CoverArtSuperfluous: string := "\U{00B4}'\U{2019}!?*/\U{2044}\\\U{2605}-_:\"&"

  /** The cover-art set is the song-db set without `.`, `【` and `】`. */
  lemma CharsetsDiffer()
    ensures SongDbSuperfluous == CoverArtSuperfluous + ".\U{3010}\U{3011}"
    ensures '.' !in CoverArtSuperfluous && '\U{3010}' !in CoverArtSuperfluous && '\U{3011}' !in CoverArtSuperfluous
    ensures ' ' !in SongDbSuperfluous && '-' in CoverArtSuperfluous
  {
  }

  /** Each character of `chars` in `s` replaced by one space. */
  function Simplified(s: string, chars: string): (r: string)
    ensures |r| == |s|
  {
    if s == [] then []
    else Simplified(s[..|s| - 1], chars) + [if s[|s| - 1] in chars then ' ' else s[|s| - 1]]
  }

  lemma {:induction false} SimplifiedSpec(s: string, chars: string)
    ensures forall i :: 0 <= i < |s| ==> Simplified(s, chars)[i] == if s[i] in chars then ' ' else s[i]
  {
    if s != [] {
      SimplifiedSpec(s[..|s| - 1], chars);
    }
  }

  /** Length is kept, no listed character other than space survives, and
      every other character stays where it was. */
  lemma SimplifiedShape(s: string, chars: string)
    ensures |Simplified(s, chars)| == |s|
    ensures forall c :: c in chars && c != ' ' ==> c !in Simplified(s, chars)
    ensures forall c :: c in Simplified(s, chars) ==> c in s || c == ' '
  {
    SimplifiedSpec(s, chars);
  }

  /** Replacing one more character is simplifying with a larger set. */
  lemma SimplifyOneMore(s: string, chars: string, c: char)
    ensures ReplaceChar(Simplified(s, chars), c, ' ') == Simplified(s, chars + [c])
  {
    SimplifiedSpec(s, chars);
    SimplifiedSpec(s, chars + [c]);
  }

  /** `simplify_charset`: `result.replace(c, ' ')` for each listed character in turn. */
  method SimplifyCharset(title: string, superfluous: string) returns (result: string)
    ensures result == Simplified(title, superfluous)
  {
    result := title;
    assert title == Simplified(title, []) by {
      SimplifiedSpec(title, []);
    }
    for j := 0 to |superfluous|
      invariant result == Simplified(title, superfluous[..j])
    {
      SimplifyOneMore(title, superfluous[..j], superfluous[j]);
      assert superfluous[..j] + [superfluous[j]] == superfluous[..j + 1];
      result := ReplaceChar(result, superfluous[j], ' ');
    }
    assert superfluous[..|superfluous|] == superfluous;
  }

  // ---------------------------------------------------------------------
  // Prefixes (`remove_prefixes` / `removePrefixes`)

  const SongDbFluff: seq<string> := ["mlp-fim", "mlp fim"]

  const CoverArtFluff: seq<string> := ["mlp-fim"]

  /** The first listed prefix the title starts with is removed; otherwise
      the title is returned unchanged. */
  function RemovePrefixes(title: string, fluff: seq<string>): (r: string)
    ensures |r| <= |title| && r == title[|title| - |r|..]
  {
    if fluff == [] then title
    else if StartsWith(title, fluff[0]) then title[|fluff[0]|..]
    else RemovePrefixes(title, fluff[1..])
  }

  /** Without a matching prefix the title is returned unchanged. */
  lemma {:induction false} RemovePrefixesNone(title: string, fluff: seq<string>)
    requires forall k :: 0 <= k < |fluff| ==> !StartsWith(title, fluff[k])
    ensures RemovePrefixes(title, fluff) == title
  {
    if fluff != [] {
      assert !StartsWith(title, fluff[0]);
      RemovePrefixesNone(title, fluff[1..]);
    }
  }

  /** Only the first matching prefix, in list order, is removed. */
  lemma {:induction false} RemovePrefixesFirst(title: string, fluff: seq<string>, k: nat)
    requires k < |fluff| && StartsWith(title, fluff[k])
    requires forall j :: 0 <= j < k ==> !StartsWith(title, fluff[j])
    ensures RemovePrefixes(title, fluff) == title[|fluff[k]|..]
  {
    if k > 0 {
      assert !StartsWith(title, fluff[0]);
      assert fluff[1..][k - 1] == fluff[k];
      forall j | 0 <= j < k - 1 ensures !StartsWith(title, fluff[1..][j]) {
        assert fluff[1..][j] == fluff[j + 1];
      }
      RemovePrefixesFirst(title, fluff[1..], k - 1);
    }
  }

  /** Once every `-` is gone, the dashed prefix can no longer match: the
      song-db list acts as `mlp fim` alone and the cover-art list never fires. */
  lemma DashedPrefixNeverFires(title: string)
    requires '-' !in title
    ensures RemovePrefixes(title, SongDbFluff) == RemovePrefixes(title, ["mlp fim"])
    ensures RemovePrefixes(title, CoverArtFluff) == title
  {
    NotDashed(title);
    SkipPrefix(title, SongDbFluff);
    SkipPrefix(title, CoverArtFluff);
    assert SongDbFluff[1..] == ["mlp fim"];
    assert CoverArtFluff[1..] == [];
  }

  /** A title without `-` does not start with `mlp-fim`. */
  lemma NotDashed(title: string)
    requires '-' !in title
    ensures !StartsWith(title, "mlp-fim")
  {
    if |title| >= 7 {
      assert title[3] in title;
      assert title[..7][3] == title[3];
    }
  }

  /** A first prefix that does not match is passed over. */
  lemma SkipPrefix(title: string, fluff: seq<string>)
    requires fluff != [] && fluff[0] == "mlp-fim" && !StartsWith(title, "mlp-fim")
    ensures RemovePrefixes(title, fluff) == RemovePrefixes(title, fluff[1..])
  {
  }

  // ---------------------------------------------------------------------
  // Featured artists (`remove_feats` / `removeFeats`)

  /** The spaced markers tried in priority order. */
  const Feats: seq<string> := [" feat. ", " feat ", " ft. ", " ft "]

  function RemoveFeatsFrom(fragment: string, pats: seq<string>): (r: string)
    ensures StartsWith(fragment, r)
  {
    if pats == [] then fragment
    else if Contains(fragment, pats[0]) then fragment[..Find(fragment, pats[0])]
    else RemoveFeatsFrom(fragment, pats[1..])
  }

  /** `remove_feats`: cut at the first occurrence of the first marker found. */
  function RemoveFeats(fragment: string): string {
    RemoveFeatsFrom(fragment, Feats)
  }

  /** Without any marker the fragment is kept whole. */
  lemma {:induction false} RemoveFeatsNone(fragment: string, pats: seq<string>)
    requires forall k :: 0 <= k < |pats| ==> !Contains(fragment, pats[k])
    ensures RemoveFeatsFrom(fragment, pats) == fragment
  {
    if pats != [] {
      assert !Contains(fragment, pats[0]);
      RemoveFeatsNone(fragment, pats[1..]);
    }
  }

  /** Otherwise it is cut at the first occurrence of the highest-priority
      marker present. */
  lemma {:induction false} RemoveFeatsFirst(fragment: string, pats: seq<string>, k: nat)
    requires k < |pats| && Contains(fragment, pats[k])
    requires forall j :: 0 <= j < k ==> !Contains(fragment, pats[j])
    ensures RemoveFeatsFrom(fragment, pats) == fragment[..Find(fragment, pats[k])]
  {
    if k > 0 {
      assert !Contains(fragment, pats[0]);
      assert pats[1..][k - 1] == pats[k];
      forall j | 0 <= j < k - 1 ensures !Contains(fragment, pats[1..][j]) {
        assert pats[1..][j] == pats[j + 1];
      }
      RemoveFeatsFirst(fragment, pats[1..], k - 1);
    }
  }

  /** An occurrence in a prefix is an occurrence in the whole. */
  lemma OccursInPrefix(s: string, n: nat, p: string, i: int)
    requires n <= |s| && OccursAt(s[..n], p, i)
    ensures OccursAt(s, p, i) && i + |p| <= n
  {
    assert s[i..i + |p|] == s[..n][i..i + |p|];
  }

  /** After the cut at the first occurrence of a non-empty marker, neither
      that marker nor any marker of higher priority is left. */
  lemma RemoveFeatsClean(fragment: string, pats: seq<string>, k: nat)
    requires k < |pats| && Contains(fragment, pats[k]) && pats[k] != []
    requires forall j :: 0 <= j < k ==> !Contains(fragment, pats[j])
    ensures forall j :: 0 <= j <= k ==> !Contains(RemoveFeatsFrom(fragment, pats), pats[j])
  {
    RemoveFeatsFirst(fragment, pats, k);
    var n := Find(fragment, pats[k]);
    forall j | 0 <= j <= k ensures !Contains(fragment[..n], pats[j]) {
      if Contains(fragment[..n], pats[j]) {
        var i :| 0 <= i <= n - |pats[j]| && OccursAt(fragment[..n], pats[j], i);
        OccursInPrefix(fragment, n, pats[j], i);
      }
    }
  }

  // ---------------------------------------------------------------------
  // The apostrophe rule of diff_song_db.py

  /** `re.sub("([^ ])'(s|ve|re)", '\\1\\2', t)`: scanning left to right, an
      apostrophe after a non-space and before `s`, `ve` or `re` is dropped;
      matches do not overlap. */
  function DropApostrophes(t: string): (r: string)
    ensures |r| <= |t|
    decreases |t|
  {
    if |t| < 3 then t
    else if t[0] != ' ' && t[1] == '\'' && t[2] == 's' then [t[0], 's'] + DropApostrophes(t[3..])
    else if t[0] != ' ' && t[1] == '\'' && |t| >= 4 && t[2..4] in {"ve", "re"} then [t[0]] + t[2..4] + DropApostrophes(t[4..])
    else [t[0]] + DropApostrophes(t[1..])
  }

  /** Dropping the apostrophe of `x'y` in front of equivalent tails. */
  lemma DropOne(x: char, y: char, rest: string, d: string)
    requires y != '\''
    requires RemoveChar(d, '\'') == RemoveChar(rest, '\'')
    ensures RemoveChar([x, y] + d, '\'') == RemoveChar([x, '\'', y] + rest, '\'')
  {
    var u := [y] + rest;
    var v := [y] + d;
    RemoveCharCons(y, rest, '\'');
    RemoveCharCons(y, d, '\'');
    assert [x, '\'', y] + rest == [x] + (['\''] + u);
    assert [x, y] + d == [x] + v;
    DropQuote(x, u, v);
  }

  /** `x` then an apostrophe in front of one tail, `x` alone in front of
      an equivalent one. */
  lemma DropQuote(x: char, u: string, v: string)
    requires RemoveChar(u, '\'') == RemoveChar(v, '\'')
    ensures RemoveChar([x] + v, '\'') == RemoveChar([x] + (['\''] + u), '\'')
  {
    RemoveCharCons(x, ['\''] + u, '\'');
    RemoveCharCons('\'', u, '\'');
    RemoveCharCons(x, v, '\'');
  }

  /** The `'ve`/`'re` match, given the claim for the text after it. */
  lemma DropVeRe(t: string, dt: string, d: string)
    requires |t| >= 4 && t[1] == '\'' && t[2] != '\'' && t[3] != '\''
    requires dt == [t[0]] + t[2..4] + d
    requires RemoveChar(d, '\'') == RemoveChar(t[4..], '\'')
    ensures RemoveChar(dt, '\'') == RemoveChar(t, '\'')
  {
    var rest := t[4..];
    assert RemoveChar([t[3]] + d, '\'') == RemoveChar([t[3]] + rest, '\'') by {
      RemoveCharCons(t[3], rest, '\'');
      RemoveCharCons(t[3], d, '\'');
    }
    DropOne(t[0], t[2], [t[3]] + rest, [t[3]] + d);
    assert dt == [t[0], t[2]] + ([t[3]] + d);
    assert t == [t[0], '\'', t[2]] + ([t[3]] + rest);
  }

  /** The `'s` match, given the claim for the text after it. */
  lemma DropS(t: string)
    requires |t| >= 3 && t[1] == '\'' && t[2] == 's'
    requires DropApostrophes(t) == [t[0], 's'] + DropApostrophes(t[3..])
    requires RemoveChar(DropApostrophes(t[3..]), '\'') == RemoveChar(t[3..], '\'')
    ensures RemoveChar(DropApostrophes(t), '\'') == RemoveChar(t, '\'')
  {
    assert t == [t[0], '\'', 's'] + t[3..];
    DropOne(t[0], 's', t[3..], DropApostrophes(t[3..]));
  }

  /** No match at the front: the first character is kept. */
  lemma DropKeep(t: string)
    requires t != []
    requires DropApostrophes(t) == [t[0]] + DropApostrophes(t[1..])
    requires RemoveChar(DropApostrophes(t[1..]), '\'') == RemoveChar(t[1..], '\'')
    ensures RemoveChar(DropApostrophes(t), '\'') == RemoveChar(t, '\'')
  {
    assert t == [t[0]] + t[1..];
    RemoveCharCons(t[0], t[1..], '\'');
    RemoveCharCons(t[0], DropApostrophes(t[1..]), '\'');
  }

  /** The rule only ever removes apostrophes. */
  lemma {:induction false} DropApostrophesOnlyDropsApostrophes(t: string)
    ensures RemoveChar(DropApostrophes(t), '\'') == RemoveChar(t, '\'')
    decreases |t|
  {
    if |t| >= 3 {
      if t[0] != ' ' && t[1] == '\'' && t[2] == 's' {
        DropApostrophesOnlyDropsApostrophes(t[3..]);
        DropS(t);
      } else if t[0] != ' ' && t[1] == '\'' && |t| >= 4 && t[2..4] in {"ve", "re"} {
        DropApostrophesOnlyDropsApostrophes(t[4..]);
        DropVeRe(t, DropApostrophes(t), DropApostrophes(t[4..]));
      } else {
        DropApostrophesOnlyDropsApostrophes(t[1..]);
        DropKeep(t);
      }
    }
  }

  /** "it's" loses its apostrophe; "can't" and " 's" keep theirs. */
  lemma ApostropheExamples()
    ensures DropApostrophes("it's") == "its"
    ensures DropApostrophes("can't") == "can't"
    ensures DropApostrophes("a 's") == "a 's"
  {
    assert "it's"[1..] == "t's";
    assert "t's"[3..] == [];
    assert "can't"[1..] == "an't" && "an't"[1..] == "n't" && "n't"[1..] == "'t";
    assert "a 's"[1..] == " 's" && " 's"[1..] == "'s";
  }

  // ---------------------------------------------------------------------
  // Whitespace (`re.sub('\s+', ' ', t)`)

  /** Every run of whitespace becomes one space. */
  function Collapse(s: string): (r: string)
    ensures |r| <= |s|
  {
    if s == [] then []
    else
      var init := s[..|s| - 1];
      var c := s[|s| - 1];
      if !IsSpace(c) then Collapse(init) + [c]
      else if init != [] && IsSpace(init[|init| - 1]) then Collapse(init)
      else Collapse(init) + [' ']
  }

  /** No two whitespace characters are adjacent, every whitespace left is a
      plain space, and nothing but spaces is added. */
  lemma {:induction false} CollapseSpec(s: string)
    ensures forall i :: 0 <= i < |Collapse(s)| - 1 ==> !(IsSpace(Collapse(s)[i]) && IsSpace(Collapse(s)[i + 1]))
    ensures forall c :: c in Collapse(s) ==> c in s || c == ' '
    ensures Collapse(s) != [] ==> (IsSpace(Collapse(s)[|Collapse(s)| - 1]) <==> IsSpace(s[|s| - 1]))
  {
    if s != [] {
      var init := s[..|s| - 1];
      CollapseSpec(init);
      if init != [] {
        assert init[|init| - 1] == s[|s| - 2];
      }
    }
  }

  /** Stripping a collapsed text leaves no whitespace at either end and none doubled. */
  lemma StripCollapsed(s: string)
    ensures var r := Strip(Collapse(s));
      && (r != [] ==> !IsSpace(r[0]) && !IsSpace(r[|r| - 1]))
      && (forall i :: 0 <= i < |r| - 1 ==> !(IsSpace(r[i]) && IsSpace(r[i + 1])))
      && (forall c :: c in r ==> c in s || c == ' ')
  {
    var t := Collapse(s);
    CollapseSpec(s);
    StripSpec(t);
    StripInner(t);
  }

  /** `Strip(t)` is a slice of `t`. */
  lemma StripInner(t: string)
    ensures exists a, b :: 0 <= a <= b <= |t| && Strip(t) == t[a..b]
  {
    StripStartSpec(t);
    var u := StripStart(t);
    StripEndSpec(u);
    var a := |t| - |u|;
    var b := a + |StripEnd(u)|;
    assert Strip(t) == t[a..b];
  }

  // ---------------------------------------------------------------------
  // The canonical forms

  /** `canonicalize_title` of diff_song_db.py. */
  function CanonicalSongDb(title: string): string {
    var t := Simplified(DropApostrophes(Lower(title)), SongDbSuperfluous);
    Strip(Collapse(RemovePrefixes(Strip(ParensRemoved(t)), SongDbFluff)))
  }

  /** `canonicalizeTitle` of dlcoverart.py: no apostrophe rule, the smaller
      character set and only the dashed prefix. */
  function CanonicalCoverArt(title: string): string {
    var t := Simplified(Lower(title), CoverArtSuperfluous);
    Strip(Collapse(RemovePrefixes(Strip(ParensRemoved(t)), CoverArtFluff)))
  }

  /** The text the canonical forms collapse, and what it holds. */
  lemma StagesKeepChars(t: string, fluff: seq<string>)
    ensures forall c :: c in RemovePrefixes(Strip(ParensRemoved(t)), fluff) ==> c in t
  {
    var p := ParensRemoved(t);
    ParensRemovedChars(t);
    StripSpec(p);
    var q := Strip(p);
    var r := RemovePrefixes(q, fluff);
    forall c | c in r ensures c in t {
      assert c in q[|q| - |r|..];
    }
  }

  /** A canonical title has no whitespace at either end, none doubled, no
      ASCII capital and none of the superfluous characters. */
  lemma CanonicalShape(title: string, lowered: string, chars: string, fluff: seq<string>)
    requires forall c :: c in lowered ==> !IsUpper(c)
    ensures var r := Strip(Collapse(RemovePrefixes(Strip(ParensRemoved(Simplified(lowered, chars))), fluff)));
      && (r != [] ==> !IsSpace(r[0]) && !IsSpace(r[|r| - 1]))
      && (forall i :: 0 <= i < |r| - 1 ==> !(IsSpace(r[i]) && IsSpace(r[i + 1])))
      && (forall c :: c in r ==> !IsUpper(c))
      && (forall c :: c in chars && c != ' ' ==> c !in r)
  {
    var t := Simplified(lowered, chars);
    SimplifiedShape(lowered, chars);
    StagesKeepChars(t, fluff);
    StripCollapsed(RemovePrefixes(Strip(ParensRemoved(t)), fluff));
  }

  lemma LowerHasNoCapitals(s: string)
    ensures forall c :: c in Lower(s) ==> !IsUpper(c)
  {
    LowerSpec(s);
  }

  lemma DropApostrophesKeepsChars(t: string)
    ensures forall c :: c in DropApostrophes(t) ==> c in t
    decreases |t|
  {
    if |t| >= 3 {
      if t[0] != ' ' && t[1] == '\'' && t[2] == 's' {
        DropApostrophesKeepsChars(t[3..]);
      } else if t[0] != ' ' && t[1] == '\'' && |t| >= 4 && t[2..4] in {"ve", "re"} {
        DropApostrophesKeepsChars(t[4..]);
      } else {
        DropApostrophesKeepsChars(t[1..]);
      }
    }
  }

  /** The song-db canonical form is lowercase, stripped, single-spaced and
      free of its superfluous characters. */
  lemma CanonicalSongDbShape(title: string)
    ensures var r := CanonicalSongDb(title);
      && (r != [] ==> !IsSpace(r[0]) && !IsSpace(r[|r| - 1]))
      && (forall i :: 0 <= i < |r| - 1 ==> !(IsSpace(r[i]) && IsSpace(r[i + 1])))
      && (forall c :: c in r ==> !IsUpper(c))
      && (forall c :: c in SongDbSuperfluous ==> c !in r)
  {
    LowerHasNoCapitals(title);
    DropApostrophesKeepsChars(Lower(title));
    CanonicalShape(title, DropApostrophes(Lower(title)), SongDbSuperfluous, SongDbFluff);
    CharsetsDiffer();
  }

  /** So is the cover-art canonical form, for its own character set. */
  lemma CanonicalCoverArtShape(title: string)
    ensures var r := CanonicalCoverArt(title);
      && (r != [] ==> !IsSpace(r[0]) && !IsSpace(r[|r| - 1]))
      && (forall i :: 0 <= i < |r| - 1 ==> !(IsSpace(r[i]) && IsSpace(r[i + 1])))
      && (forall c :: c in r ==> !IsUpper(c))
      && (forall c :: c in CoverArtSuperfluous ==> c !in r)
  {
    LowerHasNoCapitals(title);
    CanonicalShape(title, Lower(title), CoverArtSuperfluous, CoverArtFluff);
    CharsetsDiffer();
  }

  /** Inside the canonical forms only `mlp fim` can be stripped as a prefix. */
  lemma CanonicalPrefixes(title: string)
    ensures var t := Strip(ParensRemoved(Simplified(DropApostrophes(Lower(title)), SongDbSuperfluous)));
      RemovePrefixes(t, SongDbFluff) == RemovePrefixes(t, ["mlp fim"])
    ensures var t := Strip(ParensRemoved(Simplified(Lower(title), CoverArtSuperfluous)));
      RemovePrefixes(t, CoverArtFluff) == t
  {
    CharsetsDiffer();
    var a := Simplified(DropApostrophes(Lower(title)), SongDbSuperfluous);
    SimplifiedShape(DropApostrophes(Lower(title)), SongDbSuperfluous);
    StagesKeepChars(a, []);
    DashedPrefixNeverFires(Strip(ParensRemoved(a)));
    var b := Simplified(Lower(title), CoverArtSuperfluous);
    SimplifiedShape(Lower(title), CoverArtSuperfluous);
    StagesKeepChars(b, []);
    DashedPrefixNeverFires(Strip(ParensRemoved(b)));
  }

  // ---------------------------------------------------------------------
  // The fragment search of `process_fingerprint_match` and `findMatch`

  /** Some fragment has `target` as its canonical form under `canon`. */
  predicate SomeFragmentIs(fragments: seq<string>, canon: string -> string, target: string) {
    exists k :: 0 <= k < |fragments| && canon(fragments[k]) == target
  }

  /** The inner loop both scripts run over the fragments of a title: stop
      at the first fragment whose canonical form is the target. */
  method SearchFragments(elems: seq<string>, canon: string -> string, target: string) returns (found: bool)
    ensures found <==> SomeFragmentIs(elems, canon, target)
  {
    for k := 0 to |elems|
      invariant forall m :: 0 <= m < k ==> canon(elems[m]) != target
    {
      var canonFragment := canon(elems[k]);
      if canonFragment == target {
        return true;
      }
    }
    return false;
  }
}
