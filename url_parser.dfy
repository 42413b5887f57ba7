/**
 * The catalog-URL parser of `SpotifyAPI.extract_id_from_url`.
 *
 * The source searches the input for a regular expression: the literal prefix
 * "https://open.spotify.com/", a first group of lower-case letters, a `/`, and
 * a second group of letters, digits, `?`, `=` and `&`; it then cuts the second
 * group at its first `?`. Here the search is an explicit
 * scan: at each start position the literal prefix, a maximal non-empty run of
 * lower-case letters, a `/` and a maximal non-empty run of identifier
 * characters. Backtracking cannot shorten the lower-case run, because `/` is
 * not a lower-case letter, and the greedy second group is the maximal run,
 * since nothing in the pattern follows it.
 */
module UrlParser {
  import opened Wrappers

  const Prefix: string := "https://open.spotify.com/"

  /** A lower-case ASCII letter: the first group's characters. */
  predicate IsLower(c: char) {
    'a' <= c <= 'z'
  }

  /** An ASCII letter, a digit, `?`, `=` or `&`: the second group's characters. */
  predicate IsIdChar(c: char) {
    'a' <= c <= 'z' || 'A' <= c <= 'Z' || '0' <= c <= '9' || c == '?' || c == '=' || c == '&'
  }

  /** The two character classes of the pattern. */
  datatype CharClass = Lower | IdChar

  predicate InClass(c: CharClass, ch: char) {
    match c
    case Lower => IsLower(ch)
    case IdChar => IsIdChar(ch)
  }

  predicate AllLower(s: string) {
    forall k :: 0 <= k < |s| ==> IsLower(s[k])
  }

  /** The characters an extracted id may hold: identifier characters except `?`. */
  predicate AllIdNoQuery(s: string) {
    forall k :: 0 <= k < |s| ==> IsIdChar(s[k]) && s[k] != '?'
  }

  /** Length of the longest run of characters of class `c` at the start of `s`. */
  function RunLength(s: string, c: CharClass): (n: nat)
    ensures n <= |s|
    ensures forall k :: 0 <= k < n ==> InClass(c, s[k])
    ensures n == |s| || !InClass(c, s[n])
  {
    if s == [] || !InClass(c, s[0]) then 0 else 1 + RunLength(s[1..], c)
  }

  /** A run is determined by where it stops: no other length is maximal. */
  lemma RunLengthExact(s: string, c: CharClass, n: nat)
    requires n <= |s|
    requires forall k :: 0 <= k < n ==> InClass(c, s[k])
    requires n == |s| || !InClass(c, s[n])
    ensures RunLength(s, c) == n
  {
  }

  /**
   * The groups of the pattern for the text after the literal prefix:
   * (type, raw id), the raw id still holding any query string.
   */
  function Groups(rest: string): (m: Option<(string, string)>)
    ensures m.Some? ==>
      && |m.value.0| > 0 && AllLower(m.value.0)
      && |m.value.1| > 0 && (forall k :: 0 <= k < |m.value.1| ==> IsIdChar(m.value.1[k]))
  {
    var t := RunLength(rest, Lower);
    if 0 < t < |rest| && rest[t] == '/' then
      var tail := rest[t + 1..];
      var d := RunLength(tail, IdChar);
      if d > 0 then Some((rest[..t], tail[..d])) else None
    else None
  }

  /** The groups of the pattern when it matches at position `i` of `s`. */
  function MatchAt(p: string, s: string, i: nat): (m: Option<(string, string)>)
    requires i <= |s|
    ensures m.Some? ==>
      && |m.value.0| > 0 && AllLower(m.value.0)
      && |m.value.1| > 0 && (forall k :: 0 <= k < |m.value.1| ==> IsIdChar(m.value.1[k]))
  {
    if p <= s[i..] then Groups(s[i + |p|..]) else None
  }

  /**
   * A match is the text `Prefix + type + "/" + raw` at position `i`, and the
   * raw id runs as far as identifier characters go.
   */
  lemma MatchAtText(p: string, s: string, i: nat, kind: string, raw: string)
    requires i <= |s| && MatchAt(p, s, i) == Some((kind, raw))
    ensures p + kind + "/" + raw <= s[i..]
    ensures var end := |p| + |kind| + 1 + |raw|;
      end == |s[i..]| || !IsIdChar(s[i..][end])
  {
  }

  /** The groups are the text `type + "/" + raw` at the start of `rest`, the raw id being maximal. */
  lemma GroupsText(rest: string, kind: string, raw: string)
    requires Groups(rest) == Some((kind, raw))
    ensures |kind| + 1 + |raw| <= |rest|
    ensures rest[..|kind|] == kind && rest[|kind|] == '/'
    ensures rest[|kind| + 1..|kind| + 1 + |raw|] == raw
    ensures var end := |kind| + 1 + |raw|; end == |rest| || !IsIdChar(rest[end])
  {
  }

  /** After the prefix: a lower-case run of length `t`, then `/`, then an identifier character. */
  predicate KindThenId(rest: string, t: nat) {
    && 0 < t
    && t + 1 < |rest|
    && (forall k :: 0 <= k < t ==> IsLower(rest[k]))
    && rest[t] == '/'
    && IsIdChar(rest[t + 1])
  }

  /** The text after the literal prefix begins with what the two groups need. */
  ghost predicate HasGroups(rest: string) {
    exists t: nat :: KindThenId(rest, t)
  }

  /** The pattern matches some text that starts at position `i` of `s`. */
  ghost predicate MatchesAt(p: string, s: string, i: nat)
    requires i <= |s|
  {
    p <= s[i..] && HasGroups(s[i + |p|..])
  }

  lemma MatchAtIffMatches(p: string, s: string, i: nat)
    requires i <= |s|
    ensures MatchAt(p, s, i).Some? <==> MatchesAt(p, s, i)
  {
    if p <= s[i..] {
      var rest := s[i + |p|..];
      if MatchAt(p, s, i).Some? {
        assert KindThenId(rest, RunLength(rest, Lower));
      }
      if t: nat :| KindThenId(rest, t) {
        RunLengthExact(rest, Lower, t);
        assert RunLength(rest[t + 1..], IdChar) > 0;
      }
    }
  }

  /** Regular-expression search: the match at the leftmost position from `i` on. */
  function Search(p: string, s: string, i: nat): (m: Option<(string, string)>)
    requires i <= |s|
    ensures m.Some? ==>
      && |m.value.0| > 0 && AllLower(m.value.0)
      && |m.value.1| > 0 && (forall k :: 0 <= k < |m.value.1| ==> IsIdChar(m.value.1[k]))
    decreases |s| - i
  {
    var here := MatchAt(p, s, i);
    if here.Some? then here
    else if i == |s| then None
    else Search(p, s, i + 1)
  }

  /** Everything before the first `?` (all of `s` when it has none). */
  function BeforeQuery(s: string): (r: string)
    ensures r <= s
    ensures '?' !in r
    ensures r == s || s[|r|] == '?'
  {
    if s == [] || s[0] == '?' then [] else [s[0]] + BeforeQuery(s[1..])
  }

  /** `extract_id_from_url`: `Some((id, type))`, or `None` when nothing matches. */
  function ExtractIdFromUrl(url: string): (r: Option<(string, string)>)
    ensures r.Some? ==> |r.value.1| > 0 && AllLower(r.value.1) && '?' !in r.value.0
  {
    match Search(Prefix, url, 0)
    case None => None
    case Some((kind, raw)) => Some((BeforeQuery(raw), kind))
  }

  /** Position `i` is the leftmost position at or after `from` where the pattern matches. */
  ghost predicate LeftmostFrom(p: string, s: string, from: nat, i: nat) {
    from <= i <= |s| && MatchesAt(p, s, i) && forall k :: from <= k < i ==> !MatchesAt(p, s, k)
  }

  lemma {:induction false} SearchIsLeftmost(p: string, s: string, i: nat)
    requires i <= |s|
    ensures Search(p, s, i).None? <==> forall k :: i <= k <= |s| ==> !MatchesAt(p, s, k)
    ensures Search(p, s, i).Some? ==> exists k :: LeftmostFrom(p, s, i, k) && Search(p, s, i) == MatchAt(p, s, k)
    decreases |s| - i
  {
    MatchAtIffMatches(p, s, i);
    if MatchAt(p, s, i).None? && i < |s| {
      SearchIsLeftmost(p, s, i + 1);
      if Search(p, s, i).Some? {
        var k :| LeftmostFrom(p, s, i + 1, k) && Search(p, s, i) == MatchAt(p, s, k);
        assert LeftmostFrom(p, s, i, k);
      }
    }
  }

  /** The result is `None` exactly when the pattern matches nowhere in the input. */
  lemma ExtractNoneIffNoMatch(url: string)
    ensures ExtractIdFromUrl(url).None? <==> forall i :: 0 <= i <= |url| ==> !MatchesAt(Prefix, url, i)
  {
    SearchIsLeftmost(Prefix, url, 0);
  }

  /**
   * On success the type is the non-empty lower-case group of the leftmost match,
   * and the id is that match's second group up to its first `?`, so it holds
   * only letters, digits, `=` and `&`.
   */
  lemma ExtractFromLeftmostMatch(url: string)
    requires ExtractIdFromUrl(url).Some?
    ensures var (id, kind) := ExtractIdFromUrl(url).value;
      && |kind| > 0 && AllLower(kind)
      && AllIdNoQuery(id)
      && exists i, raw :: LeftmostFrom(Prefix, url, 0, i) && MatchAt(Prefix, url, i) == Some((kind, raw)) && id == BeforeQuery(raw)
  {
    SearchIsLeftmost(Prefix, url, 0);
    var i :| LeftmostFrom(Prefix, url, 0, i) && Search(Prefix, url, 0) == MatchAt(Prefix, url, i);
    var (id, kind) := ExtractIdFromUrl(url).value;
    var raw := MatchAt(Prefix, url, i).value.1;
    assert id == BeforeQuery(raw);
    forall k | 0 <= k < |id| ensures IsIdChar(id[k]) && id[k] != '?' {
      assert id[k] == raw[k];
      assert id[k] in id;
    }
  }

  /** The id is `raw` cut at its first `?` when `raw` is `id` followed by nothing or by a `?`. */
  lemma {:induction false} BeforeQueryOf(id: string, rest: string)
    requires AllIdNoQuery(id)
    requires rest == [] || rest[0] == '?'
    ensures BeforeQuery(id + rest) == id
  {
    if id != [] {
      assert (id + rest)[1..] == id[1..] + rest;
      BeforeQueryOf(id[1..], rest);
    }
  }

  /** Text made of a lower-case type, `/` and a tail gives the type and the identifier run of the tail. */
  lemma GroupsOfBuilt(rest: string, kind: string, tail: string)
    requires |kind| > 0 && AllLower(kind)
    requires |tail| > 0 && IsIdChar(tail[0])
    requires rest == kind + "/" + tail
    ensures Groups(rest) == Some((kind, tail[..RunLength(tail, IdChar)]))
  {
    assert rest[|kind|] == '/';
    RunLengthExact(rest, Lower, |kind|);
    assert rest[..|kind|] == kind;
    assert rest[|kind| + 1..] == tail;
  }

  /** At the start of a text that begins with the prefix, the match is the groups of what follows. */
  lemma MatchAtStart(p: string, s: string, rest: string)
    requires s == p + rest
    ensures MatchAt(p, s, 0) == Groups(rest)
  {
  }

  /**
   * Round trip: a URL built from a lower-case type and an id is parsed back to
   * `(id, type)`, whatever follows the id, provided it starts with a `?` or with
   * a character the pattern stops at. With an empty id the URL must go on with a
   * `?` (as in ".../track/?si=x"), and the id parsed is then empty.
   */
  lemma ExtractRoundTrip(kind: string, id: string, rest: string)
    requires |kind| > 0 && AllLower(kind)
    requires AllIdNoQuery(id)
    requires rest == [] || rest[0] == '?' || !IsIdChar(rest[0])
    requires |id| > 0 || (|rest| > 0 && rest[0] == '?')
    ensures ExtractIdFromUrl(Prefix + kind + "/" + id + rest) == Some((id, kind))
  {
    var tail := id + rest;
    var url := Prefix + kind + "/" + id + rest;
    assert url == Prefix + (kind + "/" + tail);
    assert IsIdChar(tail[0]);
    MatchAtStart(Prefix, url, kind + "/" + tail);
    GroupsOfBuilt(kind + "/" + tail, kind, tail);
    IdOfRun(id, rest);
  }

  /** The identifier run of `id + rest`, cut at its first `?`, is `id`. */
  lemma IdOfRun(id: string, rest: string)
    requires AllIdNoQuery(id)
    requires rest == [] || rest[0] == '?' || !IsIdChar(rest[0])
    ensures var tail := id + rest; BeforeQuery(tail[..RunLength(tail, IdChar)]) == id
  {
    var tail := id + rest;
    var d := RunLength(tail, IdChar);
    var raw := tail[..d];
    assert raw == id + raw[|id|..];
    if d > |id| {
      assert raw[|id|] == rest[0];
    }
    BeforeQueryOf(id, raw[|id|..]);
  }

  /** Appending a query string such as "?si=abc" to a track URL leaves the result unchanged. */
  lemma QueryDoesNotChangeResult(kind: string, id: string, query: string)
    requires |kind| > 0 && AllLower(kind)
    requires |id| > 0 && AllIdNoQuery(id)
    ensures ExtractIdFromUrl(Prefix + kind + "/" + id + "?" + query)
         == ExtractIdFromUrl(Prefix + kind + "/" + id)
         == Some((id, kind))
  {
    ExtractRoundTrip(kind, id, "?" + query);
    assert Prefix + kind + "/" + id + "?" + query == Prefix + kind + "/" + id + ("?" + query);
    ExtractRoundTrip(kind, id, []);
    assert Prefix + kind + "/" + id + [] == Prefix + kind + "/" + id;
  }

  /**
   * A second segment that starts with `?` (".../track/?si=x") still matches,
   * and gives an empty id rather than `None`.
   */
  lemma EmptyIdBeforeQuery(kind: string, query: string)
    requires |kind| > 0 && AllLower(kind)
    requires |query| > 0 && query[0] == '?'
    ensures ExtractIdFromUrl(Prefix + kind + "/" + query) == Some(("", kind))
  {
    ExtractRoundTrip(kind, "", query);
    assert Prefix + kind + "/" + "" + query == Prefix + kind + "/" + query;
  }
}
