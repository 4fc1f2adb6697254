/** Which list the page shows, and how an entry's media id is read from
    its title link: the first link whose href starts with the type path,
    then the digits captured by the regular expression `<path>(\d+)/`. */
module Href {
  import opened Wrappers
  import opened JsText

  datatype MediaKind = Anime | Manga

  /** An anime list is recognised by `animelist` anywhere in the page's
      path; every other list is taken to be a manga list. */
  function KindOf(pathname: string): (k: MediaKind)
    ensures k == Anime <==> exists i :: OccursAt(pathname, "animelist", i)
  {
    if Includes(pathname, "animelist") then Anime else Manga
  }

  /** The path prefix of a media page of that kind. */
  function TypePath(k: MediaKind): (p: string)
    ensures |p| > 0 && p[0] == '/' && p[|p| - 1] == '/'
  {
    match k
    case Anime => "/anime/"
    case Manga => "/manga/"
  }

  /** The first of the entry's title links whose href starts with `p`
      (`Array.prototype.find`). */
  function FindLink(hrefs: seq<string>, p: string): (r: Option<string>)
    ensures r.None? <==> forall i :: 0 <= i < |hrefs| ==> !StartsWith(hrefs[i], p)
    ensures r.Some? ==> exists i :: FirstLinkAt(hrefs, p, i) && hrefs[i] == r.value
  {
    if hrefs == [] then None
    else if StartsWith(hrefs[0], p) then
      assert FirstLinkAt(hrefs, p, 0);
      Some(hrefs[0])
    else
      var r := FindLink(hrefs[1..], p);
      assert forall i :: 0 < i < |hrefs| ==> hrefs[i] == hrefs[1..][i - 1];
      assert r.Some? ==> exists i :: FirstLinkAt(hrefs, p, i) && hrefs[i] == r.value by {
        if r.Some? {
          var i :| FirstLinkAt(hrefs[1..], p, i) && hrefs[1..][i] == r.value;
          assert FirstLinkAt(hrefs, p, i + 1);
        }
      }
      r
  }

  /** `hrefs[i]` is the first href that starts with `p`. */
  predicate FirstLinkAt(hrefs: seq<string>, p: string, i: int) {
    && 0 <= i < |hrefs| && StartsWith(hrefs[i], p)
    && forall j :: 0 <= j < i ==> !StartsWith(hrefs[j], p)
  }

  /** The regular expression `p(\d+)/` matches `s` at position `k` with a
      capture of `m` digits: `p` at `k`, then `m >= 1` digits, then `/`. */
  predicate RegexMatch(s: string, p: string, k: int, m: int) {
    && OccursAt(s, p, k)
    && 1 <= m && k + |p| + m < |s|
    && (forall j :: k + |p| <= j < k + |p| + m ==> IsDecimalDigit(s[j]))
    && s[k + |p| + m] == '/'
  }

  /** The length of the run of digits at the front of `s`. */
  function DigitRun(s: string): (n: nat)
    ensures n <= |s|
    ensures forall j :: 0 <= j < n ==> IsDecimalDigit(s[j])
    ensures n < |s| ==> !IsDecimalDigit(s[n])
  {
    if |s| > 0 && IsDecimalDigit(s[0]) then 1 + DigitRun(s[1..]) else 0
  }

  /** At a given position the regular expression can capture only one
      digit count: the whole run of digits, because the `/` that must follow
      is not a digit. So greedy matching and backtracking agree. */
  lemma CaptureIsWholeRun(s: string, p: string, k: int, m: int)
    requires RegexMatch(s, p, k, m)
    ensures m == DigitRun(s[k + |p|..])
  {
    var t := s[k + |p|..];
    assert forall j :: 0 <= j < |t| ==> t[j] == s[k + |p| + j];
  }

  /** The captured id of the leftmost match of `p(\d+)/` in `s` at or after
      position `k`. */
  function MatchFrom(s: string, p: string, k: nat): (r: Option<string>)
    requires forall k', m :: 0 <= k' < k ==> !RegexMatch(s, p, k', m)
    ensures r.None? <==> forall k', m :: !RegexMatch(s, p, k', m)
    ensures r.Some? ==> exists k', m :: LeftmostMatch(s, p, k', m) && r.value == s[k' + |p|..k' + |p| + m]
    decreases |s| - k
  {
    if k + |p| > |s| then
      assert forall k', m :: !RegexMatch(s, p, k', m) by {
        forall k', m | RegexMatch(s, p, k', m) ensures k' < k {}
      }
      None
    else
      var m := DigitRun(s[k + |p|..]);
      assert forall j :: k + |p| <= j < k + |p| + m ==> s[j] == s[k + |p|..][j - k - |p|];
      if OccursAt(s, p, k) && m >= 1 && k + |p| + m < |s| && s[k + |p| + m] == '/' then
        assert RegexMatch(s, p, k, m);
        assert LeftmostMatch(s, p, k, m);
        Some(s[k + |p|..k + |p| + m])
      else
        assert forall m' :: !RegexMatch(s, p, k, m') by {
          forall m' | RegexMatch(s, p, k, m') ensures false {
            CaptureIsWholeRun(s, p, k, m');
          }
        }
        MatchFrom(s, p, k + 1)
  }

  /** The match at `k` with `m` captured digits is the leftmost one. */
  ghost predicate LeftmostMatch(s: string, p: string, k: int, m: int) {
    RegexMatch(s, p, k, m) && forall k', m' :: 0 <= k' < k ==> !RegexMatch(s, p, k', m')
  }

  /** `s.match(new RegExp(p + "(\\d+)/"))?.[1]`, for a path `p` without
      regular-expression metacharacters: the digits captured by the
      leftmost match, or `None` when there is no match. */
  function ExtractId(s: string, p: string): (r: Option<string>)
    ensures r.None? <==> forall k, m :: !RegexMatch(s, p, k, m)
    ensures r.Some? ==> exists k, m :: LeftmostMatch(s, p, k, m) && r.value == s[k + |p|..k + |p| + m]
    ensures r.Some? ==> |r.value| > 0 && forall j :: 0 <= j < |r.value| ==> IsDecimalDigit(r.value[j])
  {
    MatchFrom(s, p, 0)
  }

  /** What looking up an entry's media id finds: no link under the type
      path, a link without the `<path><digits>/` pattern, or the id. */
  datatype Lookup = NoLink | NoId | Found(id: string)

  /** The media id of an entry with these title links, read as the script
      reads it: the first link under the type path, then its id. */
  function Locate(hrefs: seq<string>, kind: MediaKind): (r: Lookup)
    ensures r == NoLink <==> forall i :: 0 <= i < |hrefs| ==> !StartsWith(hrefs[i], TypePath(kind))
    ensures r.Found? ==> |r.id| > 0 && forall j :: 0 <= j < |r.id| ==> IsDecimalDigit(r.id[j])
  {
    match FindLink(hrefs, TypePath(kind))
    case None => NoLink
    case Some(l) =>
      match ExtractId(l, TypePath(kind))
      case None => NoId
      case Some(id) => Found(id)
  }

  /** Which link the lookup reads: the id is missing exactly when the first
      href under the type path has no `<path><digits>/` match, and a found
      id is that href's leftmost capture. */
  lemma LocateSpec(hrefs: seq<string>, kind: MediaKind)
    ensures var r := Locate(hrefs, kind);
            var p := TypePath(kind);
            && (r == NoId <==> exists i :: FirstLinkAt(hrefs, p, i) && ExtractId(hrefs[i], p).None?)
            && (r.Found? ==> exists i :: FirstLinkAt(hrefs, p, i) && ExtractId(hrefs[i], p) == Some(r.id))
  {
    var p := TypePath(kind);
    var l := FindLink(hrefs, p);
    if l.Some? {
      var i :| FirstLinkAt(hrefs, p, i) && hrefs[i] == l.value;
      forall i' | FirstLinkAt(hrefs, p, i') ensures i' == i {
        FirstLinkUnique(hrefs, p, i, i');
      }
    }
  }

  /** Only one href can be the first under a path. */
  lemma FirstLinkUnique(hrefs: seq<string>, p: string, i: int, i': int)
    requires FirstLinkAt(hrefs, p, i) && FirstLinkAt(hrefs, p, i')
    ensures i == i'
  {
  }

  /** The href of a media page: `<path><id>/<rest>`. */
  function MediaLink(kind: MediaKind, id: string, rest: string): string {
    TypePath(kind) + id + "/" + rest
  }

  /** A media link read back: when the first title link is a media link of
      the list's kind, the id found is exactly its id, whatever follows it
      (more digits and slashes included) and whatever links come later. */
  lemma LocateMediaLink(kind: MediaKind, id: string, rest: string, later: seq<string>)
    requires |id| > 0 && forall j :: 0 <= j < |id| ==> IsDecimalDigit(id[j])
    ensures Locate([MediaLink(kind, id, rest)] + later, kind) == Found(id)
  {
    var l := MediaLink(kind, id, rest);
    assert StartsWith(l, TypePath(kind)) by {
      assert l[..|TypePath(kind)|] == TypePath(kind);
    }
    assert FindLink([l] + later, TypePath(kind)) == Some(l);
    ExtractMediaId(kind, id, rest);
  }

  /** The id of a media link is its digits. */
  lemma ExtractMediaId(kind: MediaKind, id: string, rest: string)
    requires |id| > 0 && forall j :: 0 <= j < |id| ==> IsDecimalDigit(id[j])
    ensures ExtractId(MediaLink(kind, id, rest), TypePath(kind)) == Some(id)
  {
    MediaLinkMatches(kind, id, rest);
    ExtractAtStart(MediaLink(kind, id, rest), TypePath(kind), |id|);
  }

  /** A match at the very start of `s` is the leftmost one, so its capture
      is the id. */
  lemma ExtractAtStart(s: string, p: string, m: int)
    requires RegexMatch(s, p, 0, m)
    ensures ExtractId(s, p) == Some(s[|p|..|p| + m])
  {
    var r := ExtractId(s, p);
    assert r.Some?;
    var k, m' :| LeftmostMatch(s, p, k, m') && r.value == s[k + |p|..k + |p| + m'];
    LeftmostAtStart(s, p, m, k, m');
  }

  /** When the pattern matches at the start, that is the leftmost match. */
  lemma LeftmostAtStart(s: string, p: string, m: int, k: int, m': int)
    requires RegexMatch(s, p, 0, m) && LeftmostMatch(s, p, k, m')
    ensures k == 0 && m' == m
  {
    CaptureIsWholeRun(s, p, k, m');
    CaptureIsWholeRun(s, p, 0, m);
  }

  /** The pattern matches a media link at its start, capturing its id. */
  lemma MediaLinkMatches(kind: MediaKind, id: string, rest: string)
    requires |id| > 0 && forall j :: 0 <= j < |id| ==> IsDecimalDigit(id[j])
    ensures var p := TypePath(kind);
            var l := MediaLink(kind, id, rest);
            RegexMatch(l, p, 0, |id|) && l[|p|..|p| + |id|] == id
  {
    var p := TypePath(kind);
    var a := p + id;
    var l := MediaLink(kind, id, rest);
    assert l == a + ("/" + rest);
    assert l[..|a|] == a;
    assert l[|a|] == '/';
    assert a[..|p|] == p && a[|p|..] == id;
    assert l[0..|p|] == p;
    assert l[|p|..|p| + |id|] == id;
    assert forall j :: |p| <= j < |p| + |id| ==> l[j] == id[j - |p|];
  }
}
