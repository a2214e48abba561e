/** The matching half of dlcoverart.py: the channel's video list parsed
    from `id title` lines, local files named by their base name, and the
    search for the first video one of whose title fragments canonicalises
    to a local file's canonical title. */
module CoverArt {
  import opened Wrappers
  import opened Text
  import opened Titles

  /** A channel video as the script keeps it. */
  datatype Video = Video(id: string, fullTitle: string)

  // ---------------------------------------------------------------------
  // The video list

  /** `line.split(' ', 1)`: a line with a space is an id and a title; a
      line without one yields no video. */
  function ParseVideoLine(line: string): Option<Video> {
    var k := IndexOf(line, ' ');
    if k == -1 then None
    else Some(Video(line[..k], line[k + 1..]))
  }

  /** A line yields a video iff it has a space; the id is the text before
      the first space, and id, space and title give the line back. */
  lemma ParseVideoLineSpec(line: string)
    ensures ParseVideoLine(line).Some? <==> ' ' in line
    ensures ParseVideoLine(line).Some? ==>
      var v := ParseVideoLine(line).value;
      && ' ' !in v.id
      && v.id + " " + v.fullTitle == line
  {
    IndexOfSpec(line, ' ');
    var k := IndexOf(line, ' ');
    if k != -1 {
      assert line == line[..k] + " " + line[k + 1..];
    }
  }

  /** The videos of the lines that have a space, in order. */
  function Videos(lines: seq<string>): (r: seq<Video>)
    ensures |r| <= |lines|
  {
    if lines == [] then []
    else
      var v := ParseVideoLine(lines[|lines| - 1]);
      Videos(lines[..|lines| - 1]) + if v.Some? then [v.value] else []
  }

  /** Every video comes from a line. */
  lemma {:induction false} VideosFromLines(lines: seq<string>)
    ensures forall v :: v in Videos(lines) ==> exists i :: 0 <= i < |lines| && ParseVideoLine(lines[i]) == Some(v)
  {
    if lines != [] {
      var init := lines[..|lines| - 1];
      VideosFromLines(init);
      forall v | v in Videos(lines) ensures exists i :: 0 <= i < |lines| && ParseVideoLine(lines[i]) == Some(v) {
        if v in Videos(init) {
          var i :| 0 <= i < |init| && ParseVideoLine(init[i]) == Some(v);
          assert lines[i] == init[i];
        } else {
          assert ParseVideoLine(lines[|lines| - 1]) == Some(v);
        }
      }
    }
  }

  /** Every line with a space gives a video. */
  lemma {:induction false} LinesGiveVideos(lines: seq<string>)
    ensures forall i :: 0 <= i < |lines| && ParseVideoLine(lines[i]).Some? ==> ParseVideoLine(lines[i]).value in Videos(lines)
  {
    if lines != [] {
      var init := lines[..|lines| - 1];
      LinesGiveVideos(init);
      forall i | 0 <= i < |init| && ParseVideoLine(lines[i]).Some? ensures ParseVideoLine(lines[i]).value in Videos(lines) {
        assert lines[i] == init[i];
      }
    }
  }

  /** The loop over `output.split('\n')` appending to `videos`. */
  method ParseVideoList(output: string) returns (videos: seq<Video>)
    ensures videos == Videos(Split(output, '\n'))
  {
    var lines := Split(output, '\n');
    videos := [];
    for i := 0 to |lines|
      invariant videos == Videos(lines[..i])
    {
      assert lines[..i + 1][..i] == lines[..i];
      var v := ParseVideoLine(lines[i]);
      if v.Some? {
        videos := videos + [v.value];
      }
    }
    assert lines[..|lines|] == lines;
  }

  // ---------------------------------------------------------------------
  // Local files

  /** A local file as the script keeps it: its path, its name without the
      last extension, and that name's canonical title. */
  datatype LocalFile = LocalFile(path: string, baseName: string, canonTitle: string)

  /** The entry for the file at `path`; `fileName` stands for the path's
      base name. Only the last extension is cut, and the title that
      `FindMatch` compares is the canonical form of what is left. */
  function MakeLocalFile(path: string, fileName: string): (r: LocalFile)
    ensures r.path == path
    ensures StartsWith(fileName, r.baseName)
    ensures '.' !in fileName ==> r.baseName == fileName
    ensures '.' in fileName ==> exists ext :: '.' !in ext && r.baseName + "." + ext == fileName
    ensures r.canonTitle == CanonicalCoverArt(r.baseName)
  {
    BeforeLastDotSpec(fileName);
    LocalFile(path, BeforeLastDot(fileName), CanonicalCoverArt(BeforeLastDot(fileName)))
  }

  // ---------------------------------------------------------------------
  // `findMatch`

  /** The full title, then its `-` pieces, then its `~` pieces. */
  function Fragments(fullTitle: string): seq<string> {
    [fullTitle] + Split(fullTitle, '-') + Split(fullTitle, '~')
  }

  /** `removeFeats(canonicalizeTitle(elem)).strip()` */
  function CanonFragment(fragment: string): string {
    Strip(RemoveFeats(CanonicalCoverArt(fragment)))
  }

  /** Some fragment of the video's title canonicalises to `canonTitle`. */
  predicate VideoMatches(video: Video, canonTitle: string) {
    SomeFragmentIs(Fragments(video.fullTitle), CanonFragment, canonTitle)
  }

  /** `findMatch`: the index of the one video processed for the local file,
      the first in list order that matches, or None when the script reports
      that no matching video was found. */
  method FindMatch(localFile: LocalFile, videos: seq<Video>) returns (r: Option<nat>)
    ensures r.Some? ==> r.value < |videos| && VideoMatches(videos[r.value], localFile.canonTitle)
    ensures r.Some? ==> forall j :: 0 <= j < r.value ==> !VideoMatches(videos[j], localFile.canonTitle)
    ensures r.None? ==> forall j :: 0 <= j < |videos| ==> !VideoMatches(videos[j], localFile.canonTitle)
  {
    for i := 0 to |videos|
      invariant forall j :: 0 <= j < i ==> !VideoMatches(videos[j], localFile.canonTitle)
    {
      var videoTitleElems := [videos[i].fullTitle] + Split(videos[i].fullTitle, '-') + Split(videos[i].fullTitle, '~');
      var matches := SearchFragments(videoTitleElems, CanonFragment, localFile.canonTitle);
      if matches {
        return Some(i);
      }
    }
    return None;
  }

  /** A video whose whole title has the file's canonical title, with no
      featured-artist marker in it, is a match. */
  lemma SameCanonicalTitleMatches(video: Video, canonTitle: string)
    requires CanonicalCoverArt(video.fullTitle) == canonTitle
    requires forall k :: 0 <= k < |Feats| ==> !Contains(canonTitle, Feats[k])
    ensures VideoMatches(video, canonTitle)
  {
    RemoveFeatsNone(canonTitle, Feats);
    CanonicalCoverArtShape(video.fullTitle);
    StripSpec(canonTitle);
    assert Fragments(video.fullTitle)[0] == video.fullTitle;
    assert CanonFragment(Fragments(video.fullTitle)[0]) == canonTitle;
  }

  /** A video titled `artist ~ title` matches through its `~` piece. */
  lemma TildePieceMatches(video: Video, canonTitle: string, k: nat)
    requires k < |Split(video.fullTitle, '~')|
    requires CanonFragment(Split(video.fullTitle, '~')[k]) == canonTitle
    ensures VideoMatches(video, canonTitle)
  {
    var t := video.fullTitle;
    SplitPieces(t, '-');
    assert Fragments(t)[1 + |Split(t, '-')| + k] == Split(t, '~')[k];
    assert CanonFragment(Fragments(t)[1 + |Split(t, '-')| + k]) == canonTitle;
  }
}
