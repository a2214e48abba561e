/** The naming and bookkeeping helpers of the two scrapers, scrape.py
    (Pony.fm) and scrape_bronytunes.py (BronyTunes). Both scripts carry
    identical copies of `sanitize`, `removeExtraPrefixes` and
    `isUselessAlbum`; they are defined once here. */
module Scrape {
  import opened Wrappers
  import opened Text

  // ---------------------------------------------------------------------
  // `sanitize`

  /** The characters `sanitize` drops. */
  predicate Unsafe(c: char) {
    c == '/' || c == '\\' || c == ':'
  }

  /** `string.replace('/', '').replace("\\", "").replace(':', '')` */
  function Sanitize(s: string): (r: string)
    ensures |r| <= |s|
  {
    RemoveChar(RemoveChar(RemoveChar(s, '/'), '\\'), ':')
  }

  /** No unsafe character survives, and every other character does. */
  lemma SanitizeSpec(s: string)
    ensures forall c :: c in Sanitize(s) <==> c in s && !Unsafe(c)
  {
    RemoveCharSpec(s, '/');
    RemoveCharSpec(RemoveChar(s, '/'), '\\');
    RemoveCharSpec(RemoveChar(RemoveChar(s, '/'), '\\'), ':');
  }

  /** Sanitizing works piece by piece, so the kept characters stay in
      their order. */
  lemma SanitizeConcat(a: string, b: string)
    ensures Sanitize(a + b) == Sanitize(a) + Sanitize(b)
  {
    RemoveCharConcat(a, b, '/');
    RemoveCharConcat(RemoveChar(a, '/'), RemoveChar(b, '/'), '\\');
    RemoveCharConcat(RemoveChar(RemoveChar(a, '/'), '\\'), RemoveChar(RemoveChar(b, '/'), '\\'), ':');
  }

  /** One character is dropped iff it is unsafe. */
  lemma SanitizeChar(c: char)
    ensures Sanitize([c]) == if Unsafe(c) then [] else [c]
  {
  }

  /** Sanitizing twice is sanitizing once. */
  lemma {:induction false} SanitizeIdempotent(s: string)
    ensures Sanitize(Sanitize(s)) == Sanitize(s)
  {
    if s != [] {
      SanitizeIdempotent(s[1..]);
      assert s == [s[0]] + s[1..];
      SanitizeConcat([s[0]], s[1..]);
      SanitizeConcat(Sanitize([s[0]]), Sanitize(s[1..]));
      SanitizeChar(s[0]);
      if !Unsafe(s[0]) {
        SanitizeChar(s[0]);
      } else {
        assert Sanitize([]) == [];
      }
    }
  }

  // ---------------------------------------------------------------------
  // `removeExtraPrefixes`

  /** A title that repeats the artist: one `artist - ` is stripped, or else
      one `artist- `; any other title is kept. */
  function RemoveExtraPrefixes(title: string, artist: string): (r: string)
    ensures EndsWith(title, r)
  {
    if StartsWith(title, artist + " - ") then title[|artist + " - "|..]
    else if StartsWith(title, artist + "- ") then title[|artist + "- "|..]
    else title
  }

  /** The title is the stripped prefix followed by the result, and the
      title is unchanged when it carries neither prefix. */
  lemma RemoveExtraPrefixesSpec(title: string, artist: string)
    ensures StartsWith(title, artist + " - ") ==> title == artist + " - " + RemoveExtraPrefixes(title, artist)
    ensures !StartsWith(title, artist + " - ") && StartsWith(title, artist + "- ") ==> title == artist + "- " + RemoveExtraPrefixes(title, artist)
    ensures !StartsWith(title, artist + " - ") && !StartsWith(title, artist + "- ") ==> RemoveExtraPrefixes(title, artist) == title
  {
    var p, q := artist + " - ", artist + "- ";
    if StartsWith(title, p) {
      assert title == title[..|p|] + title[|p|..];
    } else if StartsWith(title, q) {
      assert title == title[..|q|] + title[|q|..];
    }
  }

  /** Only one prefix goes: a title that repeats the artist twice keeps
      the second copy. */
  lemma RemovesOnePrefix(artist: string, rest: string)
    ensures RemoveExtraPrefixes(artist + " - " + (artist + " - " + rest), artist) == artist + " - " + rest
  {
    var p := artist + " - ";
    var title := p + (p + rest);
    assert title[..|p|] == p;
    assert title[|p|..] == p + rest;
  }

  // ---------------------------------------------------------------------
  // `isUselessAlbum`

  const UselessAlbums: seq<string> := [
    "My Little Medleys", "My Little Mashups", "My Little DJ Tunes", "My Little Pixels",
    "My Little YTPMVs", "Rocking is Magic", "Rapping is Magic"
  ]

  /** Compilation albums the scrapers do not make a folder for. */
  predicate IsUselessAlbum(album: string) {
    album in UselessAlbums
  }

  /** The membership test is case sensitive: a listed name in lower case
      is not listed. */
  lemma UselessAlbumCaseSensitive(album: string)
    requires IsUselessAlbum(album)
    ensures !IsUselessAlbum(Lower(album))
  {
    assert forall k :: 0 <= k < |UselessAlbums| ==> |UselessAlbums[k]| > 0 && IsUpper(UselessAlbums[k][0]);
    LoweredNotListed(UselessAlbums, album);
  }

  /** In a list of capitalised names, a listed name in lower case is not
      listed. */
  lemma LoweredNotListed(names: seq<string>, name: string)
    requires forall k :: 0 <= k < |names| ==> |names[k]| > 0 && IsUpper(names[k][0])
    requires name in names
    ensures Lower(name) !in names
  {
    assert |name| > 0;
    assert Lower(name)[0] == LowerChar(name[0]);
  }

  // ---------------------------------------------------------------------
  // `getDownloadUrl`

  /** An entry of `SRC_FORMATS`. */
  datatype Format = Format(name: string, ext: string)

  /** The formats tried, best first. */
  const SrcFormats: seq<Format> := [Format("FLAC", "flac"), Format("MP3", "mp3")]

  const TrackUrlPrefix: string := "https://pony.fm/t"

  /** `"https://pony.fm/t" + str(id) + "/dl." + format['ext']` */
  function GetDownloadUrl(id: nat, format: Format): string {
    TrackUrlPrefix + Decimal(id) + "/dl." + format.ext
  }

  /** Reads the track id back out of a download URL for the given extension. */
  function DownloadUrlId(url: string, ext: string): Option<nat> {
    var suffix := "/dl." + ext;
    if |url| >= |TrackUrlPrefix| + |suffix| && StartsWith(url, TrackUrlPrefix) && EndsWith(url, suffix) then
      ParseDecimal(url[|TrackUrlPrefix|..|url| - |suffix|])
    else None
  }

  /** The URL names its track: the id can be read back from it. */
  lemma DownloadUrlRoundTrip(id: nat, format: Format)
    ensures DownloadUrlId(GetDownloadUrl(id, format), format.ext) == Some(id)
  {
    var url := GetDownloadUrl(id, format);
    var suffix := "/dl." + format.ext;
    assert url == TrackUrlPrefix + Decimal(id) + suffix;
    assert url[|TrackUrlPrefix|..|url| - |suffix|] == Decimal(id);
    DecimalRoundTrip(id);
  }

  // ---------------------------------------------------------------------
  // Resuming

  /** `DL_QUEUE_SIZE` of scrape.py and of scrape_bronytunes.py. */
  const PonyFmQueueSize: nat := 50
  const BronyTunesQueueSize: nat := 2

  /** The first id fetched: the saved id less the queue size, but never
      below 1; 1 when the resume file cannot be read as a number. */
  function ResumeStart(saved: string, queueSize: nat): (id: int)
    ensures id >= 1
  {
    match ParseDecimal(saved)
    case Some(n) => if n - queueSize > 1 then n - queueSize else 1
    case None => 1
  }

  /** After a run that saved track `id`, the next run starts at most
      `queueSize` ids earlier and never later, so no track between is lost. */
  lemma ResumeAfterSave(id: nat, queueSize: nat)
    requires id >= 1
    ensures id - queueSize <= ResumeStart(Decimal(id), queueSize) <= id
    ensures ResumeStart(Decimal(id), queueSize) == if id - queueSize > 1 then id - queueSize else 1
  {
    DecimalRoundTrip(id);
  }

  // ---------------------------------------------------------------------
  // After the download

  /** Downloads shorter than this are taken for error pages. */
  const MinTrackBytes: nat := 8192

  /** What `downloadTrack` does with the bytes it received. */
  datatype Stored = Corrupted | AlreadyDownloaded | Written(data: seq<bv8>)

  /** Only a written track moves the resume state forward; the two skips
      return before it. */
  predicate AdvancesResume(s: Stored) {
    s.Written?
  }

  /** Too short: skipped; already on disk by now: skipped; otherwise written. */
  function StoreDownload(data: seq<bv8>, existsNow: bool): (r: Stored)
    ensures r.Written? ==> r.data == data && |r.data| >= MinTrackBytes
    ensures |data| < MinTrackBytes ==> r == Corrupted
    ensures |data| >= MinTrackBytes && !existsNow ==> r == Written(data)
    ensures |data| >= MinTrackBytes && existsNow ==> r == AlreadyDownloaded
    ensures r.Written? <==> |data| >= MinTrackBytes && !existsNow
    ensures AdvancesResume(r) <==> |data| >= MinTrackBytes && !existsNow
  {
    if |data| < MinTrackBytes then Corrupted
    else if existsNow then AlreadyDownloaded
    else Written(data)
  }

  // ---------------------------------------------------------------------
  // BronyTunes cover art

  const PlaceholderArt: string := "song-white-512.png"

  /** `hasCoverArt`: the artwork URL redirects to the generic placeholder
      when the song has no art. A reply without a `location` header makes
      the script fail (`None` here). */
  function HasCoverArt(location: Option<string>): (r: Option<bool>)
    ensures r.Some? <==> location.Some?
    ensures r == Some(false) <==> location.Some? && EndsWith(location.value, PlaceholderArt)
  {
    match location
    case None => None
    case Some(loc) => Some(!EndsWith(loc, PlaceholderArt))
  }

  /** Any redirect to the placeholder, wherever it is hosted, means no art. */
  lemma PlaceholderMeansNoArt(host: string)
    ensures HasCoverArt(Some(host + PlaceholderArt)) == Some(false)
  {
    var loc := host + PlaceholderArt;
    assert loc[|loc| - |PlaceholderArt|..] == PlaceholderArt;
  }
}
