/** The collection rules of diff_song_db.py: the title test applied to a
    fingerprint match, the de-duplication of a database's songs by
    fingerprint, and the grouping of source songs by artist into artists
    without any match and unmatched songs to import. */
module SongDb {
  import opened Text
  import opened Titles

  /** One row of the `songs` table; `fingerprint` is the decoded print text. */
  datatype Song = Song(
    artist: string,
    albumsPath: string,
    title: string,
    format: string,
    duration: int,
    fingerprint: string,
    hasCoverArt: bool)

  // ---------------------------------------------------------------------
  // The title test of `process_fingerprint_match`

  /** The whole source title followed by its `-` pieces. */
  function Fragments(title: string): seq<string> {
    [title] + Split(title, '-')
  }

  /** `remove_feats(canonicalize_title(elem)).strip()` */
  function CanonFragment(fragment: string): string {
    Strip(RemoveFeats(CanonicalSongDb(fragment)))
  }

  /** The two songs are merged: identical titles, or some fragment of the
      source title canonicalises to the destination's canonical title. */
  predicate TitlesAgree(srcTitle: string, dstTitle: string) {
    srcTitle == dstTitle || SomeFragmentIs(Fragments(srcTitle), CanonFragment, CanonicalSongDb(dstTitle))
  }

  /** `process_fingerprint_match`: whether the matched pair goes on to be
      merged (true) or is reported as having different titles (false). */
  method ProcessFingerprintMatch(srcTitle: string, dstTitle: string) returns (merge: bool)
    ensures merge <==> TitlesAgree(srcTitle, dstTitle)
  {
    var dstCanon := CanonicalSongDb(dstTitle);
    var srcTitleElems := [srcTitle] + Split(srcTitle, '-');
    assert srcTitleElems == Fragments(srcTitle);
    if dstTitle != srcTitle {
      var found := SearchFragments(srcTitleElems, CanonFragment, dstCanon);
      if !found {
        return false;
      }
    }
    return true;
  }

  /** Titles that differ only in case, superfluous punctuation, bracket
      groups, spacing or a leading `mlp fim` still merge, unless the
      canonical title carries a featured-artist marker. */
  lemma CanonicallyEqualTitlesMerge(srcTitle: string, dstTitle: string)
    requires CanonicalSongDb(srcTitle) == CanonicalSongDb(dstTitle)
    requires forall k :: 0 <= k < |Feats| ==> !Contains(CanonicalSongDb(srcTitle), Feats[k])
    ensures TitlesAgree(srcTitle, dstTitle)
  {
    var c := CanonicalSongDb(srcTitle);
    RemoveFeatsNone(c, Feats);
    CanonicalSongDbShape(srcTitle);
    StripSpec(c);
    assert Fragments(srcTitle)[0] == srcTitle;
    assert CanonFragment(Fragments(srcTitle)[0]) == CanonicalSongDb(dstTitle);
    assert SomeFragmentIs(Fragments(srcTitle), CanonFragment, CanonicalSongDb(dstTitle));
  }

  /** A source title `artist - title` merges with a destination titled
      just `title` whenever the piece after the dash canonicalises to it. */
  lemma PieceMatchMerges(srcTitle: string, dstTitle: string, k: nat)
    requires k < |Split(srcTitle, '-')|
    requires CanonFragment(Split(srcTitle, '-')[k]) == CanonicalSongDb(dstTitle)
    ensures TitlesAgree(srcTitle, dstTitle)
  {
    assert Fragments(srcTitle)[k + 1] == Split(srcTitle, '-')[k];
    assert SomeFragmentIs(Fragments(srcTitle), CanonFragment, CanonicalSongDb(dstTitle));
  }

  // ---------------------------------------------------------------------
  // Keyed collections with Python dict order

  /** The keys of a dict filled from `keys` in turn: first-appearance order. */
  function FirstSeen(keys: seq<string>): (r: seq<string>)
    ensures |r| <= |keys|
  {
    if keys == [] then []
    else
      var d := FirstSeen(keys[..|keys| - 1]);
      if keys[|keys| - 1] in d then d else d + [keys[|keys| - 1]]
  }

  /** Each key once, and exactly the keys that occur. */
  lemma {:induction false} FirstSeenSpec(keys: seq<string>)
    ensures forall k :: k in FirstSeen(keys) <==> k in keys
    ensures forall i, j :: 0 <= i < j < |FirstSeen(keys)| ==> FirstSeen(keys)[i] != FirstSeen(keys)[j]
  {
    if keys != [] {
      var init := keys[..|keys| - 1];
      FirstSeenSpec(init);
      assert keys == init + [keys[|keys| - 1]];
    }
  }

  function PrintsOf(rows: seq<Song>): (r: seq<string>)
    ensures |r| == |rows|
  {
    if rows == [] then [] else PrintsOf(rows[..|rows| - 1]) + [rows[|rows| - 1].fingerprint]
  }

  lemma {:induction false} PrintsOfSpec(rows: seq<Song>)
    ensures forall i :: 0 <= i < |rows| ==> PrintsOf(rows)[i] == rows[i].fingerprint
  {
    if rows != [] {
      PrintsOfSpec(rows[..|rows| - 1]);
    }
  }

  // ---------------------------------------------------------------------
  // `import_songs`

  /** The `fingerprints` dict after the rows, as a map: the last row with a
      given fingerprint overwrites the earlier ones. */
  function Table(rows: seq<Song>): map<string, Song> {
    if rows == [] then map[]
    else Table(rows[..|rows| - 1])[rows[|rows| - 1].fingerprint := rows[|rows| - 1]]
  }

  /** The dict holds exactly the fingerprints of the rows. */
  lemma {:induction false} TableKeys(rows: seq<Song>)
    ensures forall p :: p in Table(rows) <==> p in PrintsOf(rows)
  {
    if rows != [] {
      TableKeys(rows[..|rows| - 1]);
    }
  }

  /** No row after `i` carries the fingerprint `p`. */
  predicate LastWith(rows: seq<Song>, p: string, i: nat) {
    forall j :: i < j < |rows| ==> rows[j].fingerprint != p
  }

  /** The song kept for a fingerprint is the last row carrying it. */
  lemma {:induction false} TableLastWins(rows: seq<Song>, p: string)
    requires p in Table(rows)
    ensures exists i :: 0 <= i < |rows| && rows[i] == Table(rows)[p] && rows[i].fingerprint == p && LastWith(rows, p, i)
  {
    var init := rows[..|rows| - 1];
    var last := rows[|rows| - 1];
    if last.fingerprint != p {
      TableLastWins(init, p);
      var i :| 0 <= i < |init| && init[i] == Table(init)[p] && init[i].fingerprint == p && LastWith(init, p, i);
      assert rows[i] == init[i];
      assert LastWith(rows, p, i) by {
        forall j | i < j < |rows| ensures rows[j].fingerprint != p {
          if j < |init| {
            assert rows[j] == init[j];
          }
        }
      }
    } else {
      assert rows[|rows| - 1] == Table(rows)[p];
    }
  }

  /** One row of `import_songs`: store the song, counting it as an exact
      duplicate when its fingerprint is already present. */
  method ImportRow(ghost rows: seq<Song>, fingerprints: map<string, Song>, order: seq<string>, dupCount: nat, song: Song)
    returns (fingerprints': map<string, Song>, order': seq<string>, dupCount': nat)
    requires fingerprints == Table(rows) && order == FirstSeen(PrintsOf(rows)) && dupCount == |rows| - |order|
    ensures fingerprints' == Table(rows + [song]) && order' == FirstSeen(PrintsOf(rows + [song]))
    ensures dupCount' == |rows + [song]| - |order'|
  {
    TableKeys(rows);
    FirstSeenSpec(PrintsOf(rows));
    assert (rows + [song])[..|rows|] == rows;
    assert PrintsOf(rows + [song]) == PrintsOf(rows) + [song.fingerprint];
    assert PrintsOf(rows + [song])[..|rows|] == PrintsOf(rows);
    if song.fingerprint in fingerprints {
      dupCount' := dupCount + 1;
      order' := order;
    } else {
      dupCount' := dupCount;
      order' := order + [song.fingerprint];
    }
    fingerprints' := fingerprints[song.fingerprint := song];
  }

  /** `import_songs` on the rows of `SELECT DISTINCT * FROM songs`: the dict
      from fingerprint to song with its key order, and the number of exact
      duplicates, which is the number of rows minus the number of distinct
      fingerprints. */
  method ImportSongs(rows: seq<Song>) returns (fingerprints: map<string, Song>, order: seq<string>, exactDupCount: nat)
    ensures fingerprints == Table(rows)
    ensures order == FirstSeen(PrintsOf(rows))
    ensures exactDupCount == |rows| - |order|
  {
    fingerprints, order, exactDupCount := map[], [], 0;
    var i := 0;
    while i < |rows|
      invariant 0 <= i <= |rows|
      invariant fingerprints == Table(rows[..i])
      invariant order == FirstSeen(PrintsOf(rows[..i]))
      invariant exactDupCount == i - |order|
    {
      fingerprints, order, exactDupCount := ImportRow(rows[..i], fingerprints, order, exactDupCount, rows[i]);
      assert rows[..i] + [rows[i]] == rows[..i + 1];
      i := i + 1;
    }
    assert rows[..i] == rows;
  }

  /** The key order lists each fingerprint of the dict exactly once. */
  lemma ImportedOrderIsKeys(rows: seq<Song>)
    ensures forall p :: p in FirstSeen(PrintsOf(rows)) <==> p in Table(rows)
    ensures forall i, j :: 0 <= i < j < |FirstSeen(PrintsOf(rows))| ==> FirstSeen(PrintsOf(rows))[i] != FirstSeen(PrintsOf(rows))[j]
    ensures |Table(rows)| == |FirstSeen(PrintsOf(rows))|
  {
    FirstSeenSpec(PrintsOf(rows));
    TableKeys(rows);
    DistinctCard(FirstSeen(PrintsOf(rows)));
    assert Table(rows).Keys == set p | p in FirstSeen(PrintsOf(rows));
  }

  /** A sequence without repeats has as many elements as its set. */
  lemma {:induction false} DistinctCard(s: seq<string>)
    requires forall i, j :: 0 <= i < j < |s| ==> s[i] != s[j]
    ensures |set p | p in s| == |s|
  {
    if s != [] {
      var init := s[..|s| - 1];
      DistinctCard(init);
      assert (set p | p in s) == (set p | p in init) + {s[|s| - 1]};
      assert s[|s| - 1] !in init;
    }
  }

  /** Rows with pairwise different fingerprints are imported without
      duplicates. */
  lemma {:induction false} NoRepeatedPrintsNoDuplicates(rows: seq<Song>)
    requires forall i, j :: 0 <= i < j < |rows| ==> rows[i].fingerprint != rows[j].fingerprint
    ensures FirstSeen(PrintsOf(rows)) == PrintsOf(rows)
  {
    if rows != [] {
      var init := rows[..|rows| - 1];
      NoRepeatedPrintsNoDuplicates(init);
      PrintsOfSpec(init);
      assert rows[|rows| - 1].fingerprint !in PrintsOf(init);
    }
  }

  // ---------------------------------------------------------------------
  // Grouping the source songs by artist

  function ArtistsOf(songs: seq<Song>): (r: seq<string>)
    ensures |r| == |songs|
  {
    if songs == [] then [] else ArtistsOf(songs[..|songs| - 1]) + [songs[|songs| - 1].artist]
  }

  /** The `src_artists` dict: each artist's songs in order. */
  function Groups(songs: seq<Song>): map<string, seq<Song>> {
    if songs == [] then map[]
    else
      var g := Groups(songs[..|songs| - 1]);
      var s := songs[|songs| - 1];
      g[s.artist := (if s.artist in g then g[s.artist] else []) + [s]]
  }

  /** The songs of one artist, in order. */
  function SongsBy(songs: seq<Song>, artist: string): (r: seq<Song>)
    ensures |r| <= |songs|
  {
    if songs == [] then []
    else SongsBy(songs[..|songs| - 1], artist) + if songs[|songs| - 1].artist == artist then [songs[|songs| - 1]] else []
  }

  /** Every artist of the songs has a group, holding exactly its songs in order. */
  lemma {:induction false} GroupsSpec(songs: seq<Song>)
    ensures forall a :: a in Groups(songs) <==> a in ArtistsOf(songs)
    ensures forall a :: a in Groups(songs) ==> Groups(songs)[a] == SongsBy(songs, a) && Groups(songs)[a] != []
    ensures forall a :: a !in Groups(songs) ==> SongsBy(songs, a) == []
  {
    if songs != [] {
      GroupsSpec(songs[..|songs| - 1]);
    }
  }

  lemma {:induction false} SongsBySpec(songs: seq<Song>, artist: string)
    ensures forall s :: s in SongsBy(songs, artist) <==> s in songs && s.artist == artist
  {
    if songs != [] {
      SongsBySpec(songs[..|songs| - 1], artist);
      assert songs == songs[..|songs| - 1] + [songs[|songs| - 1]];
    }
  }

  /** One song of the grouping loop. */
  method GroupSong(ghost songs: seq<Song>, artists: seq<string>, groups: map<string, seq<Song>>, song: Song)
    returns (artists': seq<string>, groups': map<string, seq<Song>>)
    requires artists == FirstSeen(ArtistsOf(songs)) && groups == Groups(songs)
    ensures artists' == FirstSeen(ArtistsOf(songs + [song])) && groups' == Groups(songs + [song])
  {
    GroupsSpec(songs);
    FirstSeenSpec(ArtistsOf(songs));
    assert (songs + [song])[..|songs|] == songs;
    assert ArtistsOf(songs + [song])[..|songs|] == ArtistsOf(songs);
    if song.artist !in groups {
      groups' := groups[song.artist := []];
      artists' := artists + [song.artist];
    } else {
      groups' := groups;
      artists' := artists;
    }
    groups' := groups'[song.artist := groups'[song.artist] + [song]];
  }

  /** The `src_artists` loop: artists in first-appearance order and their songs. */
  method GroupByArtist(songs: seq<Song>) returns (artists: seq<string>, groups: map<string, seq<Song>>)
    ensures artists == FirstSeen(ArtistsOf(songs)) && groups == Groups(songs)
  {
    artists, groups := [], map[];
    for i := 0 to |songs|
      invariant artists == FirstSeen(ArtistsOf(songs[..i])) && groups == Groups(songs[..i])
    {
      artists, groups := GroupSong(songs[..i], artists, groups, songs[i]);
      assert songs[..i] + [songs[i]] == songs[..i + 1];
    }
    assert songs[..|songs|] == songs;
  }

  /** Some song of the group was matched by the fingerprint matcher; the
      matched songs are those whose print the matcher reported. */
  predicate HasMatch(group: seq<Song>, matched: set<string>) {
    exists i :: 0 <= i < |group| && group[i].fingerprint in matched
  }

  /** The inner `for song in songs: ... break` loop. */
  method AnyMatched(group: seq<Song>, matched: set<string>) returns (b: bool)
    ensures b <==> HasMatch(group, matched)
  {
    b := false;
    var i := 0;
    while i < |group| && !b
      invariant 0 <= i <= |group|
      invariant !b ==> forall k :: 0 <= k < i ==> group[k].fingerprint !in matched
      invariant b ==> HasMatch(group, matched)
    {
      if group[i].fingerprint in matched {
        b := true;
      }
      i := i + 1;
    }
  }

  /** `src_artists_without_matches`, in artist order. */
  function WithoutMatches(artists: seq<string>, groups: map<string, seq<Song>>, matched: set<string>): (r: seq<string>)
    requires forall a :: a in artists ==> a in groups
    ensures |r| <= |artists|
  {
    if artists == [] then []
    else
      var a := artists[|artists| - 1];
      WithoutMatches(artists[..|artists| - 1], groups, matched) + if HasMatch(groups[a], matched) then [] else [a]
  }

  lemma {:induction false} WithoutMatchesSpec(artists: seq<string>, groups: map<string, seq<Song>>, matched: set<string>)
    requires forall a :: a in artists ==> a in groups
    ensures forall a :: a in WithoutMatches(artists, groups, matched) <==> a in artists && !HasMatch(groups[a], matched)
  {
    if artists != [] {
      var init := artists[..|artists| - 1];
      WithoutMatchesSpec(init, groups, matched);
      assert artists == init + [artists[|artists| - 1]];
    }
  }

  /** The loop that lists the artists none of whose songs has a match. */
  method ArtistsWithoutMatches(artists: seq<string>, groups: map<string, seq<Song>>, matched: set<string>) returns (without: seq<string>)
    requires forall a :: a in artists ==> a in groups
    ensures without == WithoutMatches(artists, groups, matched)
  {
    without := [];
    for i := 0 to |artists|
      invariant without == WithoutMatches(artists[..i], groups, matched)
    {
      var m := AnyMatched(groups[artists[i]], matched);
      assert artists[..i + 1][..i] == artists[..i];
      if !m {
        without := without + [artists[i]];
      }
    }
    assert artists[..|artists|] == artists;
  }

  /** The unmatched songs of one group. */
  function Unmatched(group: seq<Song>, matched: set<string>): (r: seq<Song>)
    ensures |r| <= |group|
  {
    if group == [] then []
    else Unmatched(group[..|group| - 1], matched) + if group[|group| - 1].fingerprint in matched then [] else [group[|group| - 1]]
  }

  lemma {:induction false} UnmatchedSpec(group: seq<Song>, matched: set<string>)
    ensures forall s :: s in Unmatched(group, matched) <==> s in group && s.fingerprint !in matched
  {
    if group != [] {
      UnmatchedSpec(group[..|group| - 1], matched);
      assert group == group[..|group| - 1] + [group[|group| - 1]];
    }
  }

  /** The songs reported as "unmatched song to import", artist by artist,
      skipping the artists without any match. */
  function ToImport(artists: seq<string>, groups: map<string, seq<Song>>, without: seq<string>, matched: set<string>): seq<Song>
    requires forall a :: a in artists ==> a in groups
  {
    if artists == [] then []
    else
      var a := artists[|artists| - 1];
      ToImport(artists[..|artists| - 1], groups, without, matched) + if a in without then [] else Unmatched(groups[a], matched)
  }

  lemma {:induction false} ToImportSpec(artists: seq<string>, groups: map<string, seq<Song>>, without: seq<string>, matched: set<string>)
    requires forall a :: a in artists ==> a in groups
    ensures forall s :: s in ToImport(artists, groups, without, matched) <==>
      exists a :: a in artists && a !in without && s in groups[a] && s.fingerprint !in matched
  {
    if artists != [] {
      var init := artists[..|artists| - 1];
      var a := artists[|artists| - 1];
      ToImportSpec(init, groups, without, matched);
      UnmatchedSpec(groups[a], matched);
      assert artists == init + [a];
    }
  }

  /** The final loop: for each artist with at least one match, its unmatched songs. */
  method UnmatchedToImport(artists: seq<string>, groups: map<string, seq<Song>>, without: seq<string>, matched: set<string>)
    returns (report: seq<Song>)
    requires forall a :: a in artists ==> a in groups
    ensures report == ToImport(artists, groups, without, matched)
  {
    report := [];
    for i := 0 to |artists|
      invariant report == ToImport(artists[..i], groups, without, matched)
    {
      assert artists[..i + 1][..i] == artists[..i];
      var artist := artists[i];
      if artist !in without {
        var songs := groups[artist];
        for j := 0 to |songs|
          invariant report == ToImport(artists[..i], groups, without, matched) + Unmatched(songs[..j], matched)
        {
          assert songs[..j + 1][..j] == songs[..j];
          if songs[j].fingerprint !in matched {
            report := report + [songs[j]];
          }
        }
        assert songs[..|songs|] == songs;
      }
    }
    assert artists[..|artists|] == artists;
  }

  /** The artists reported without matches, for the source songs. */
  function WithoutMatchesIn(songs: seq<Song>, matched: set<string>): seq<string> {
    GroupedArtists(songs);
    WithoutMatches(FirstSeen(ArtistsOf(songs)), Groups(songs), matched)
  }

  /** The songs reported for import, for the source songs. */
  function ToImportIn(songs: seq<Song>, matched: set<string>): seq<Song> {
    GroupedArtists(songs);
    ToImport(FirstSeen(ArtistsOf(songs)), Groups(songs), WithoutMatchesIn(songs, matched), matched)
  }

  /** An artist is listed without matches iff it has songs and none of
      them matched. */
  lemma WithoutMatchesInSpec(songs: seq<Song>, matched: set<string>)
    ensures forall a :: a in WithoutMatchesIn(songs, matched) <==> a in ArtistsOf(songs) && !HasMatch(SongsBy(songs, a), matched)
  {
    GroupsSpec(songs);
    FirstSeenSpec(ArtistsOf(songs));
    WithoutMatchesSpec(FirstSeen(ArtistsOf(songs)), Groups(songs), matched);
  }

  /** A song is reported for import iff it is unmatched and some song of
      its artist matched. */
  lemma ToImportInSpec(songs: seq<Song>, matched: set<string>)
    ensures forall s :: s in ToImportIn(songs, matched) <==>
      s in songs && s.fingerprint !in matched && HasMatch(SongsBy(songs, s.artist), matched)
  {
    var artists := FirstSeen(ArtistsOf(songs));
    var groups := Groups(songs);
    GroupsSpec(songs);
    FirstSeenSpec(ArtistsOf(songs));
    var without := WithoutMatchesIn(songs, matched);
    WithoutMatchesInSpec(songs, matched);
    ToImportSpec(artists, groups, without, matched);
    forall s | s in ToImportIn(songs, matched)
      ensures s in songs && s.fingerprint !in matched && HasMatch(SongsBy(songs, s.artist), matched)
    {
      var a :| a in artists && a !in without && s in groups[a] && s.fingerprint !in matched;
      SongsBySpec(songs, a);
    }
    forall s | s in songs && s.fingerprint !in matched && HasMatch(SongsBy(songs, s.artist), matched)
      ensures s in ToImportIn(songs, matched)
    {
      ArtistOfSong(songs, s);
      SongsBySpec(songs, s.artist);
      assert s.artist in artists && s.artist !in without && s in groups[s.artist];
    }
  }

  /** Every artist listed has a group. */
  lemma GroupedArtists(songs: seq<Song>)
    ensures forall a :: a in FirstSeen(ArtistsOf(songs)) ==> a in Groups(songs)
  {
    GroupsSpec(songs);
    FirstSeenSpec(ArtistsOf(songs));
  }

  lemma {:induction false} ArtistOfSong(songs: seq<Song>, s: Song)
    requires s in songs
    ensures s.artist in ArtistsOf(songs)
  {
    var init := songs[..|songs| - 1];
    if s != songs[|songs| - 1] {
      assert songs == init + [songs[|songs| - 1]];
      ArtistOfSong(init, s);
    }
  }
}
