/**
 * What the interactive script shows of fetched tracks: durations as `m:ss`,
 * the first ten entries of a listing followed by "... and n more tracks", and
 * the playlist filter that keeps the items that carry a track.
 */
module Display {
  import opened Wrappers

  /** The fields of a track object the listings read; `artists` holds the artists' names. */
  datatype Track = Track(name: string, artists: seq<string>, durationMs: int)

  /** A playlist entry; `track` is `None` when its "track" value is missing, null or empty (falsy). */
  datatype PlaylistItem = PlaylistItem(track: Option<Track>)

  /** How many entries a listing shows before summarising the rest. */
  const ListLimit: nat := 10

  function Min(a: nat, b: nat): nat {
    if a < b then a else b
  }

  // ---------------------------------------------------------------- durations

  /**
   * Whole minutes of `ms` (floor division by 60000) and the whole seconds of
   * the remainder. Python's floor division and modulo by a positive divisor
   * agree with Dafny's `/` and `%` for every integer. The pair is the whole
   * seconds of `ms` as minutes and seconds.
   */
  function DurationParts(ms: int): (r: (int, nat))
    ensures r.1 < 60
    ensures r.0 * 60 + r.1 == ms / 1000
  {
    var q, rem := ms / 60000, ms % 60000;
    assert ms == 1000 * (60 * q + rem / 1000) + rem % 1000;
    (q, rem / 1000)
  }

  /** Minutes and seconds are determined by the whole seconds: no other split has seconds below 60. */
  lemma DurationPartsUnique(ms: int, minutes: int, seconds: int)
    requires 0 <= seconds < 60 && minutes * 60 + seconds == ms / 1000
    ensures DurationParts(ms) == (minutes, seconds)
  {
  }

  predicate IsDigit(c: char) {
    '0' <= c <= '9'
  }

  predicate AllDigits(s: string) {
    forall k :: 0 <= k < |s| ==> IsDigit(s[k])
  }

  function DigitChar(d: nat): (c: char)
    requires d < 10
    ensures IsDigit(c)
  {
    ('0' as int + d) as char
  }

  function DigitValue(c: char): nat {
    if IsDigit(c) then c as int - '0' as int else 0
  }

  /** Decimal text as Python prints a natural number: digits, with no leading zero unless the number is 0. */
  predicate CanonicalNat(s: string) {
    |s| > 0 && AllDigits(s) && (|s| == 1 || s[0] != '0')
  }

  /** Decimal text as Python prints an integer: a canonical natural, or `-` and a canonical non-zero natural. */
  predicate CanonicalInt(s: string) {
    CanonicalNat(s) || (|s| >= 2 && s[0] == '-' && CanonicalNat(s[1..]) && s[1..] != "0")
  }

  /** Decimal text of a natural number, most significant digit first. */
  function NatText(n: nat): (s: string)
    ensures CanonicalNat(s)
    ensures s[0] == '0' <==> n == 0
  {
    if n < 10 then [DigitChar(n)] else NatText(n / 10) + [DigitChar(n % 10)]
  }

  /** The value of a string of decimal digits. */
  function ParseNat(s: string): nat {
    if s == [] then 0 else ParseNat(s[..|s| - 1]) * 10 + DigitValue(s[|s| - 1])
  }

  lemma {:induction false} NatTextRoundTrip(n: nat)
    ensures ParseNat(NatText(n)) == n
  {
    if n >= 10 {
      var s := NatText(n);
      assert s[..|s| - 1] == NatText(n / 10);
      NatTextRoundTrip(n / 10);
    }
  }

  /** Decimal text of any integer, with a leading minus sign when negative. */
  function IntText(n: int): (s: string)
    ensures CanonicalInt(s)
    ensures s[0] == '-' <==> n < 0
  {
    if n < 0 then "-" + NatText(-n) else NatText(n)
  }

  /** Digits that do not start with `0` stand for a positive number. */
  lemma {:induction false} LeadingDigitPositive(s: string)
    requires |s| > 0 && AllDigits(s) && s[0] != '0'
    ensures ParseNat(s) > 0
  {
    if |s| > 1 {
      LeadingDigitPositive(s[..|s| - 1]);
    }
  }

  /** Canonical digits are the text of their value, and of no other number. */
  lemma {:induction false} NatTextUnique(s: string)
    requires CanonicalNat(s)
    ensures s == NatText(ParseNat(s))
  {
    var n := ParseNat(s);
    if |s| == 1 {
      assert s[..0] == [];
      assert DigitChar(n) == s[0];
    } else {
      var init := s[..|s| - 1];
      LeadingDigitPositive(init);
      NatTextUnique(init);
      assert n / 10 == ParseNat(init) && n % 10 == DigitValue(s[|s| - 1]);
      assert DigitChar(n % 10) == s[|s| - 1];
      assert s == init + [s[|s| - 1]];
    }
  }

  /** The value of a string of decimal digits with an optional leading minus sign. */
  function ParseInt(s: string): int {
    if |s| > 0 && s[0] == '-' then -(ParseNat(s[1..]) as int) else ParseNat(s)
  }

  lemma IntTextRoundTrip(n: int)
    ensures ParseInt(IntText(n)) == n
  {
    if n < 0 {
      NatTextRoundTrip(-n);
      assert IntText(n)[1..] == NatText(-n);
    } else {
      NatTextRoundTrip(n);
    }
  }

  /** Canonical integer text is the text of its value, and of no other integer. */
  lemma IntTextUnique(s: string)
    requires CanonicalInt(s)
    ensures s == IntText(ParseInt(s))
  {
    if CanonicalNat(s) {
      NatTextUnique(s);
    } else {
      var digits := s[1..];
      NatTextUnique(digits);
      LeadingDigitPositive(digits);
      assert s == "-" + digits;
    }
  }

  /** A number below 100 as exactly two digits, zero-padded. */
  function Pad2(n: nat): (s: string)
    requires n < 100
    ensures |s| == 2
  {
    [DigitChar(n / 10), DigitChar(n % 10)]
  }

  /** The two characters of `Pad2(n)` are digits that read back as `n`. */
  lemma Pad2ReadsBack(n: nat)
    requires n < 100
    ensures AllDigits(Pad2(n)) && ParseNat(Pad2(n)) == n
  {
    var s := Pad2(n);
    assert s[..1] == [DigitChar(n / 10)];
    assert [DigitChar(n / 10)][..0] == [];
    assert DigitValue(s[0]) == n / 10 && DigitValue(s[1]) == n % 10;
    assert ParseNat(s[..1]) == n / 10;
  }

  /** A duration shown as minutes, a colon and two-digit seconds. */
  function DurationText(ms: int): (t: string)
    ensures |t| >= 4 && t[|t| - 3] == ':'
  {
    var (minutes, seconds) := DurationParts(ms);
    IntText(minutes) + ":" + Pad2(seconds)
  }

  /**
   * The text before the colon is the minutes as Python prints an integer, and
   * the two digits after it are the seconds, which are below 60 and together
   * with the minutes give the whole seconds of `ms`. With `IntTextUnique`, this
   * leaves exactly one text for each duration.
   */
  lemma DurationTextReadsBack(ms: int)
    ensures var t := DurationText(ms);
      && |t| >= 4 && t[|t| - 3] == ':' && AllDigits(t[|t| - 2..])
      && CanonicalInt(t[..|t| - 3])
      && var minutes, seconds := ParseInt(t[..|t| - 3]), ParseNat(t[|t| - 2..]);
         seconds < 60 && minutes * 60 + seconds == ms / 1000
  {
    var (minutes, seconds) := DurationParts(ms);
    var t := DurationText(ms);
    assert t[..|t| - 3] == IntText(minutes);
    assert t[|t| - 2..] == Pad2(seconds);
    Pad2ReadsBack(seconds);
    IntTextRoundTrip(minutes);
  }

  /** Two digits are the zero-padded text of their value. */
  lemma Pad2Unique(u: string)
    requires |u| == 2 && AllDigits(u)
    ensures ParseNat(u) < 100 && u == Pad2(ParseNat(u))
  {
    assert u[..1][..0] == [];
    assert ParseNat(u[..1]) == DigitValue(u[0]);
    var n := ParseNat(u);
    assert n / 10 == DigitValue(u[0]) && n % 10 == DigitValue(u[1]);
  }

  /**
   * A text of the shape `DurationTextReadsBack` describes, whose minutes and
   * seconds give the whole seconds of `ms`, is the duration text of `ms`.
   */
  lemma DurationTextUnique(ms: int, t: string)
    requires |t| >= 4 && t[|t| - 3] == ':' && AllDigits(t[|t| - 2..]) && CanonicalInt(t[..|t| - 3])
    requires var minutes, seconds := ParseInt(t[..|t| - 3]), ParseNat(t[|t| - 2..]);
      seconds < 60 && minutes * 60 + seconds == ms / 1000
    ensures t == DurationText(ms)
  {
    var head, tail := t[..|t| - 3], t[|t| - 2..];
    DurationPartsUnique(ms, ParseInt(head), ParseNat(tail));
    IntTextUnique(head);
    Pad2Unique(tail);
    assert t == head + ":" + tail;
  }

  // ---------------------------------------------------------------- listings

  /** How many entries a cut listing leaves unlisted, or `None` when it is not cut. */
  function MoreCount(n: nat): (more: Option<nat>)
    ensures more.Some? <==> n > ListLimit
    ensures Min(n, ListLimit) + more.GetOr(0) == n
  {
    if n > ListLimit then Some(n - ListLimit) else None
  }

  /** A listed track and its number in the listing, counted from 1. */
  datatype Listed = Listed(index: nat, track: Track)

  /** The first artist's name, or "Unknown" for a track without artists. */
  function LeadArtist(t: Track): (a: string)
    ensures a in t.artists || (t.artists == [] && a == "Unknown")
    ensures t.artists != [] ==> a == t.artists[0]
  {
    if |t.artists| > 0 then t.artists[0] else "Unknown"
  }

  /**
   * The album listing: the first ten tracks, numbered from 1, and the count of
   * the tracks left unlisted.
   */
  method ListAlbumTracks(tracks: seq<Track>) returns (lines: seq<Listed>, more: Option<nat>)
    ensures |lines| == Min(|tracks|, ListLimit)
    ensures forall k :: 0 <= k < |lines| ==> lines[k] == Listed(k + 1, tracks[k])
    ensures |lines| + more.GetOr(0) == |tracks|
    ensures more.Some? <==> |tracks| > ListLimit
  {
    lines := [];
    for i := 0 to Min(|tracks|, ListLimit)
      invariant |lines| == i
      invariant forall k :: 0 <= k < i ==> lines[k] == Listed(k + 1, tracks[k])
    {
      lines := lines + [Listed(i + 1, tracks[i])];
    }
    more := MoreCount(|tracks|);
  }

  /** `line` shows the item at position `line.index` (counted from 1), and that item carries its track. */
  predicate ShowsItem(items: seq<PlaylistItem>, line: Listed) {
    1 <= line.index <= |items| && items[line.index - 1].track == Some(line.track)
  }

  /** Some line of `lines` carries the number `n`. */
  ghost predicate Numbered(lines: seq<Listed>, n: nat) {
    exists k :: 0 <= k < |lines| && lines[k].index == n
  }

  lemma NumberedAppend(lines: seq<Listed>, line: Listed)
    ensures Numbered(lines + [line], line.index)
    ensures forall n :: Numbered(lines, n) ==> Numbered(lines + [line], n)
  {
    assert (lines + [line])[|lines|] == line;
    forall n | Numbered(lines, n) ensures Numbered(lines + [line], n) {
      var k :| 0 <= k < |lines| && lines[k].index == n;
      assert (lines + [line])[k] == lines[k];
    }
  }

  /**
   * `lines` is the listing of the items before position `i`: each line shows a
   * track-carrying item before `i`, line numbers increase, and every such item
   * has a line.
   */
  ghost predicate ListedUpTo(items: seq<PlaylistItem>, lines: seq<Listed>, i: nat) {
    && (forall k :: 0 <= k < |lines| ==> ShowsItem(items, lines[k]) && lines[k].index <= i)
    && (forall k, l :: 0 <= k < l < |lines| ==> lines[k].index < lines[l].index)
    && (forall j :: 0 <= j < i && j < |items| && items[j].track.Some? ==> Numbered(lines, j + 1))
  }

  /** One step of the listing loop: a line for item `i` when it carries a track, none otherwise. */
  lemma ListedStep(items: seq<PlaylistItem>, lines: seq<Listed>, i: nat)
    requires i < |items| && ListedUpTo(items, lines, i)
    ensures items[i].track.None? ==> ListedUpTo(items, lines, i + 1)
    ensures items[i].track.Some? ==> ListedUpTo(items, lines + [Listed(i + 1, items[i].track.value)], i + 1)
  {
    if items[i].track.Some? {
      NumberedAppend(lines, Listed(i + 1, items[i].track.value));
    }
  }

  /**
   * The playlist listing: among the first ten items, a line for each one that
   * carries a track, numbered by its position in the playlist (an item without
   * a track leaves a gap in the numbering), and the count of items left unlisted.
   */
  method ListPlaylistTracks(items: seq<PlaylistItem>) returns (lines: seq<Listed>, more: Option<nat>)
    ensures forall k :: 0 <= k < |lines| ==> ShowsItem(items, lines[k]) && lines[k].index <= ListLimit
    ensures forall k, l :: 0 <= k < l < |lines| ==> lines[k].index < lines[l].index
    ensures forall j :: 0 <= j < Min(|items|, ListLimit) && items[j].track.Some? ==> Numbered(lines, j + 1)
    ensures Min(|items|, ListLimit) + more.GetOr(0) == |items|
    ensures more.Some? <==> |items| > ListLimit
  {
    lines := [];
    for i := 0 to Min(|items|, ListLimit)
      invariant ListedUpTo(items, lines, i)
    {
      ListedStep(items, lines, i);
      if items[i].track.Some? {
        lines := lines + [Listed(i + 1, items[i].track.value)];
      }
    }
    more := MoreCount(|items|);
  }

  // ---------------------------------------------------------------- playlist filter

  /** The tracks of the playlist items that carry one, in playlist order. */
  function PlaylistTracks(items: seq<PlaylistItem>): (r: seq<Track>)
    ensures |r| <= |items|
    ensures forall t :: t in r <==> exists i :: 0 <= i < |items| && items[i].track == Some(t)
  {
    if items == [] then []
    else
      var rest := PlaylistTracks(items[1..]);
      assert forall i :: 0 < i < |items| ==> items[i] == items[1..][i - 1];
      match items[0].track
      case Some(t) => [t] + rest
      case None => rest
  }

  /** The filter keeps the playlist's order: it distributes over concatenation. */
  lemma {:induction false} PlaylistTracksConcat(a: seq<PlaylistItem>, b: seq<PlaylistItem>)
    ensures PlaylistTracks(a + b) == PlaylistTracks(a) + PlaylistTracks(b)
  {
    if a == [] {
      assert a + b == b;
    } else {
      assert (a + b)[1..] == a[1..] + b;
      PlaylistTracksConcat(a[1..], b);
    }
  }

  /** Nothing is dropped exactly when every item carries a track, and then the tracks are listed one for one. */
  lemma {:induction false} PlaylistTracksKeepsAll(items: seq<PlaylistItem>)
    ensures |PlaylistTracks(items)| == |items| <==> forall i :: 0 <= i < |items| ==> items[i].track.Some?
    ensures (forall i :: 0 <= i < |items| ==> items[i].track.Some?) ==>
      forall i :: 0 <= i < |items| ==> PlaylistTracks(items)[i] == items[i].track.value
  {
    if items != [] {
      PlaylistTracksKeepsAll(items[1..]);
      assert forall i :: 0 < i < |items| ==> items[i] == items[1..][i - 1];
    }
  }
}
