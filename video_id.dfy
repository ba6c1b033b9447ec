/**
 * `extractVideoId` of src/App.js: the first match of the regular expression
 * `(?:youtube\.com.*v=|youtu\.be\/)([^&]+)` in a URL, and its first group.
 *
 * The matcher follows the backtracking semantics of JavaScript regular
 * expressions without flags: start positions are tried from left to right;
 * at each, the `youtube.com` alternative before the `youtu.be/` one; `.*`
 * first takes the whole rest of the line and gives characters back one at a
 * time; `.` matches anything but a line terminator; `([^&]+)` takes the
 * longest run of characters other than '&', and must take at least one.
 */
module VideoId {
  import opened Options

  const Host := "youtube.com"
  const ShortHost := "youtu.be/"
  const Param := "v="

  /** The characters `.` does not match. */
  predicate IsLineTerminator(c: char) {
    c == '\n' || c == '\r' || c == '\U{2028}' || c == '\U{2029}'
  }

  /** s holds pat from position i on. */
  predicate IsAt(s: string, i: int, pat: string) {
    0 <= i && i + |pat| <= |s| && s[i..i + |pat|] == pat
  }

  /** How far `.*` can reach from p: the first line terminator at or after p, or the end. */
  function LineEnd(s: string, p: nat): (q: nat)
    requires p <= |s|
    ensures p <= q <= |s|
    ensures forall t :: p <= t < q ==> !IsLineTerminator(s[t])
    ensures q == |s| || IsLineTerminator(s[q])
    decreases |s| - p
  {
    if p == |s| || IsLineTerminator(s[p]) then p else LineEnd(s, p + 1)
  }

  /** Where `[^&]+` taken from p stops: the first '&' at or after p, or the end. */
  function RunEnd(s: string, p: nat): (q: nat)
    requires p <= |s|
    ensures p <= q <= |s|
    ensures forall t :: p <= t < q ==> s[t] != '&'
    ensures q == |s| || s[q] == '&'
    decreases |s| - p
  {
    if p == |s| || s[p] == '&' then p else RunEnd(s, p + 1)
  }

  /** `v=([^&]+)` succeeds at k. */
  predicate ParamAt(s: string, k: int) {
    IsAt(s, k, Param) && k + 2 < |s| && s[k + 2] != '&'
  }

  /**
   * The backtracking of greedy `.*` before `v=([^&]+)`: the end of `.*` is
   * tried at hi, hi - 1, ..., lo, and the first (so the largest) position
   * where the rest of the pattern succeeds is returned.
   */
  function LastParam(s: string, lo: nat, hi: nat): (r: Option<nat>)
    requires lo <= hi <= |s|
    ensures r.Some? ==> lo <= r.value <= hi && ParamAt(s, r.value)
    ensures r.Some? ==> forall k :: r.value < k <= hi ==> !ParamAt(s, k)
    ensures r.None? ==> forall k :: lo <= k <= hi ==> !ParamAt(s, k)
    decreases hi - lo
  {
    if ParamAt(s, hi) then Some(hi)
    else if hi == lo then None
    else LastParam(s, lo, hi - 1)
  }

  /** Where the group starts when the whole pattern matches from position i, if it does. */
  function MatchAt(s: string, i: nat): (r: Option<nat>)
    requires i <= |s|
    ensures r.Some? ==> r.value < |s| && s[r.value] != '&'
  {
    var viaHost :=
      if IsAt(s, i, Host) then
        match LastParam(s, i + |Host|, LineEnd(s, i + |Host|))
        case Some(k) => Some(k + |Param|)
        case None => None
      else None;
    if viaHost.Some? then viaHost
    else if IsAt(s, i, ShortHost) && i + |ShortHost| < |s| && s[i + |ShortHost|] != '&' then
      Some(i + |ShortHost|)
    else None
  }

  datatype Found = Found(start: nat, group: nat)

  /** The leftmost match at or after position i. */
  function SearchFrom(s: string, i: nat): (r: Option<Found>)
    requires i <= |s|
    ensures r.Some? ==> i <= r.value.start <= |s| && MatchAt(s, r.value.start) == Some(r.value.group)
    ensures r.Some? ==> forall j :: i <= j < r.value.start ==> MatchAt(s, j).None?
    ensures r.None? ==> forall j :: i <= j <= |s| ==> MatchAt(s, j).None?
    decreases |s| - i
  {
    match MatchAt(s, i)
    case Some(p) => Some(Found(i, p))
    case None => if i == |s| then None else SearchFrom(s, i + 1)
  }

  /** `extractVideoId(url)`: group 1 of the first match, or null. */
  function ExtractVideoId(url: string): (r: Option<string>)
    ensures r.Some? ==> r.value != [] && '&' !in r.value
  {
    match SearchFrom(url, 0)
    case None => None
    case Some(f) => Some(url[f.group..RunEnd(url, f.group)])
  }

  //
  // The pattern stated declaratively: which positions match, which match is
  // taken, and what its group holds.
  //

  /** `youtube\.com.*v=([^&]+)` matches from i with `.*` ending at k. */
  ghost predicate HostMatch(s: string, i: int, k: int) {
    IsAt(s, i, Host) && i + |Host| <= k && ParamAt(s, k)
    && forall t :: i + |Host| <= t < k ==> !IsLineTerminator(s[t])
  }

  /** `youtu\.be\/([^&]+)` matches from i. */
  ghost predicate ShortHostMatch(s: string, i: int) {
    IsAt(s, i, ShortHost) && i + |ShortHost| < |s| && s[i + |ShortHost|] != '&'
  }

  ghost predicate MatchesAt(s: string, i: int) {
    (exists k :: HostMatch(s, i, k)) || ShortHostMatch(s, i)
  }

  /**
   * The match from i has its group at p: after the last `v=` that works
   * when the first alternative matches at all, else after `youtu.be/`.
   */
  ghost predicate GroupAt(s: string, i: int, p: int) {
    || (HostMatch(s, i, p - |Param|) && forall k :: p - |Param| < k ==> !HostMatch(s, i, k))
    || (p == i + |ShortHost| && ShortHostMatch(s, i) && forall k :: !HostMatch(s, i, k))
  }

  /** id is the longest non-empty run of characters other than '&' from p on. */
  ghost predicate IsMaximalRun(s: string, p: int, id: string) {
    && 0 <= p && p + |id| <= |s| && s[p..p + |id|] == id && id != []
    && (forall t :: 0 <= t < |id| ==> id[t] != '&')
    && (p + |id| == |s| || s[p + |id|] == '&')
  }

  /** What the regular expression yields on s: the group of its leftmost match. */
  ghost predicate IsVideoIdOf(s: string, id: string) {
    exists i, p :: 0 <= i <= |s| && (forall j :: 0 <= j < i ==> !MatchesAt(s, j))
      && GroupAt(s, i, p) && IsMaximalRun(s, p, id)
  }

  /** Up to the line end, "no line terminator before k" is "k is not past LineEnd". */
  lemma LineEndBound(s: string, p: nat, k: nat)
    requires p <= k < |s|
    ensures (forall t :: p <= t < k ==> !IsLineTerminator(s[t])) <==> k <= LineEnd(s, p)
  {
    var q := LineEnd(s, p);
    if k > q {
      assert p <= q < k && IsLineTerminator(s[q]);
    }
  }

  /** MatchAt agrees with the declarative statement of the pattern. */
  lemma MatchAtGroup(s: string, i: nat, p: int)
    requires i <= |s|
    ensures MatchAt(s, i).None? <==> !MatchesAt(s, i)
    ensures MatchAt(s, i) == Some(p) <==> GroupAt(s, i, p)
  {
    var lo := i + |Host|;
    var hostRun: Option<nat> := None;
    if IsAt(s, i, Host) {
      var hi := LineEnd(s, lo);
      hostRun := LastParam(s, lo, hi);
      forall k | HostMatch(s, i, k)
        ensures k <= hi
      {
        LineEndBound(s, lo, k);
      }
      match hostRun
      case Some(k0) =>
        assert HostMatch(s, i, k0) by { LineEndBound(s, lo, k0); }
        assert forall k :: k0 < k ==> !HostMatch(s, i, k);
      case None =>
        assert forall k :: !HostMatch(s, i, k);
    } else {
      assert forall k :: !HostMatch(s, i, k);
    }
  }

  /** ExtractVideoId is null exactly when no position matches. */
  lemma ExtractVideoIdNone(url: string)
    ensures ExtractVideoId(url).None? <==> forall i :: 0 <= i <= |url| ==> !MatchesAt(url, i)
  {
    match SearchFrom(url, 0)
    case None =>
      forall i | 0 <= i <= |url|
        ensures !MatchesAt(url, i)
      {
        MatchAtGroup(url, i, 0);
      }
    case Some(f) =>
      MatchAtGroup(url, f.start, f.group);
  }

  /** The run of characters other than '&' taken from p, when it is not empty, is maximal. */
  lemma RunIsMaximal(s: string, p: nat)
    requires p < |s| && s[p] != '&'
    ensures IsMaximalRun(s, p, s[p..RunEnd(s, p)])
  {
  }

  /** A video id, when there is one, is a non-empty run free of '&' that reaches an '&' or the end. */
  lemma ExtractVideoIdShape(url: string)
    requires ExtractVideoId(url).Some?
    ensures exists p :: IsMaximalRun(url, p, ExtractVideoId(url).value)
  {
    var f := SearchFrom(url, 0).value;
    RunIsMaximal(url, f.group);
  }

  /** Two maximal runs from the same position are the same string. */
  lemma MaximalRunUnique(s: string, p: int, a: string, b: string)
    requires IsMaximalRun(s, p, a) && IsMaximalRun(s, p, b)
    ensures a == b
  {
  }

  /** When the leftmost match starts at i with its group at p, the result is the run from p. */
  lemma LeftmostMatch(s: string, i: nat, p: nat)
    requires i <= |s| && MatchAt(s, i) == Some(p)
    requires forall j :: 0 <= j < i ==> MatchAt(s, j).None?
    ensures SearchFrom(s, 0) == Some(Found(i, p))
    ensures ExtractVideoId(s) == Some(s[p..RunEnd(s, p)])
  {
    var f := SearchFrom(s, 0).value;
    assert f.start == i;
  }

  /**
   * The first alternative matches from i with its group after the `v=` at k
   * when no later `v=` works.
   */
  lemma LastParamMatch(s: string, i: nat, k: nat)
    requires IsAt(s, i, Host) && i + |Host| <= k && ParamAt(s, k)
    requires forall t :: i + |Host| <= t < k ==> !IsLineTerminator(s[t])
    requires forall k' :: k < k' ==> !ParamAt(s, k')
    ensures MatchAt(s, i) == Some(k + |Param|)
  {
    var lo := i + |Host|;
    LineEndBound(s, lo, k);
    var hi := LineEnd(s, lo);
    assert LastParam(s, lo, hi) == Some(k);
  }

  /** The id ExtractVideoId returns is the group of the leftmost match. */
  lemma ExtractVideoIdSound(url: string)
    requires ExtractVideoId(url).Some?
    ensures IsVideoIdOf(url, ExtractVideoId(url).value)
  {
    var f := SearchFrom(url, 0).value;
    MatchAtGroup(url, f.start, f.group);
    forall j | 0 <= j < f.start
      ensures !MatchesAt(url, j)
    {
      MatchAtGroup(url, j, 0);
    }
    RunIsMaximal(url, f.group);
  }

  /** The group of the leftmost match is what ExtractVideoId returns. */
  lemma ExtractVideoIdComplete(url: string, id: string, i: nat, p: int)
    requires i <= |url| && (forall j :: 0 <= j < i ==> !MatchesAt(url, j))
    requires GroupAt(url, i, p) && IsMaximalRun(url, p, id)
    ensures ExtractVideoId(url) == Some(id)
  {
    MatchAtGroup(url, i, p);
    forall j | 0 <= j < i
      ensures MatchAt(url, j).None?
    {
      MatchAtGroup(url, j, 0);
    }
    LeftmostMatch(url, i, p);
    RunIsMaximal(url, p);
    MaximalRunUnique(url, p, id, url[p..RunEnd(url, p)]);
  }

  /** ExtractVideoId returns exactly the group of the leftmost match. */
  lemma ExtractVideoIdCorrect(url: string, id: string)
    ensures ExtractVideoId(url) == Some(id) <==> IsVideoIdOf(url, id)
  {
    if ExtractVideoId(url) == Some(id) {
      ExtractVideoIdSound(url);
    }
    if IsVideoIdOf(url, id) {
      var i, p :| 0 <= i <= |url| && (forall j :: 0 <= j < i ==> !MatchesAt(url, j))
        && GroupAt(url, i, p) && IsMaximalRun(url, p, id);
      ExtractVideoIdComplete(url, id, i, p);
    }
  }
}

/** What extractVideoId gives on the usual forms of YouTube links. */
module VideoIdExamples {
  import opened Options
  import opened VideoId

  const Secure := "https://"

  /** "https://youtu.be/" */
  const ShortPage := Secure + ShortHost

  /** "https://www.youtube.com/watch?v=" */
  const WatchPage := Secure + "www." + Host + "/watch?" + Param

  /** No character of x is a line terminator. */
  predicate OnOneLine(x: string) {
    forall t :: 0 <= t < |x| ==> !IsLineTerminator(x[t])
  }

  /** No match starts from lo up to hi when those characters hold no 'y'. */
  lemma NoMatchIn(s: string, lo: nat, hi: nat)
    requires lo <= hi <= |s|
    requires forall j :: lo <= j < hi ==> s[j] != 'y'
    ensures forall j :: lo <= j < hi ==> MatchAt(s, j).None?
  {
    forall j | lo <= j < hi
      ensures MatchAt(s, j).None?
    {
      if j + |Host| <= |s| {
        assert s[j..j + |Host|][0] != Host[0];
      }
      if j + |ShortHost| <= |s| {
        assert s[j..j + |ShortHost|][0] != ShortHost[0];
      }
    }
  }

  /** No match starts inside the scheme. */
  lemma NoMatchInScheme(s: string, n: nat)
    requires n <= 8 && 8 <= |s| && s[..8] == Secure
    ensures forall j :: 0 <= j < n ==> MatchAt(s, j).None?
  {
    forall j | 0 <= j < n
      ensures s[j] != 'y'
    {
      assert s[j] == Secure[j];
    }
    NoMatchIn(s, 0, n);
  }

  /** The run of characters other than '&' from p reaches the end when there is no '&' after p. */
  lemma RunToEnd(s: string, p: nat)
    requires p <= |s|
    requires forall t :: p <= t < |s| ==> s[t] != '&'
    ensures RunEnd(s, p) == |s|
  {
  }

  /** The id ends a link: the result is the id when it is the non-empty, '&'-free tail from p. */
  lemma TailIsId(s: string, p: nat, id: string)
    requires p + |id| == |s| && s[p..] == id && '&' !in id
    ensures s[p..RunEnd(s, p)] == id
  {
    forall t | p <= t < |s|
      ensures s[t] != '&'
    {
      assert s[t] == id[t - p];
    }
    RunToEnd(s, p);
  }

  /** No "v=" starts past the last-but-one character of a prefix ending in '=' when none is in id. */
  lemma NoParamInId(prefix: string, id: string)
    requires |prefix| >= 2 && prefix[|prefix| - 1] == '='
    requires forall t :: !IsAt(id, t, Param)
    ensures forall k :: |prefix| - 2 < k ==> !ParamAt(prefix + id, k)
  {
    var s := prefix + id;
    var n := |prefix|;
    forall k | n - 2 < k
      ensures !ParamAt(s, k)
    {
      if k + |Param| <= |s| {
        if k == n - 1 {
          assert s[k..k + |Param|][0] == prefix[n - 1];
        } else {
          assert s[k..k + |Param|] == id[k - n..k - n + |Param|];
          assert !IsAt(id, k - n, Param);
        }
      }
    }
  }

  /** A short link "https://youtu.be/" + id gives id, for any id that is non-empty and free of '&'. */
  lemma ShortLink(id: string)
    requires id != [] && '&' !in id
    ensures ExtractVideoId(ShortPage + id) == Some(id)
  {
    var s := ShortPage + id;
    assert s[..8] == Secure && s[8..17] == ShortHost && s[17..] == id;
    NoMatchInScheme(s, 8);
    assert !IsAt(s, 8, Host) by {
      if 8 + |Host| <= |s| {
        assert s[8..8 + |Host|][5] == s[13] != Host[5];
      }
    }
    assert MatchAt(s, 8) == Some(17);
    LeftmostMatch(s, 8, 17);
    TailIsId(s, 17, id);
  }

  /** A short link without an id matches nothing: the group needs at least one character. */
  lemma ShortLinkWithoutId()
    ensures ExtractVideoId(ShortPage) == None
  {
    var s := ShortPage;
    assert s[..8] == Secure && s[8..] == ShortHost;
    NoMatchInScheme(s, 8);
    NoMatchIn(s, 9, 17);
    assert MatchAt(s, 8).None? && MatchAt(s, 17).None?;
    assert SearchFrom(s, 0).None?;
  }

  /** In a string that starts with the watch page, the first alternative is tried at 12 first. */
  lemma WatchPageStart(s: string)
    requires |s| >= 32 && s[..32] == WatchPage
    ensures forall j :: 0 <= j < 12 ==> MatchAt(s, j).None?
    ensures IsAt(s, 12, Host) && IsAt(s, 30, Param)
    ensures forall t :: 23 <= t < 32 ==> !IsLineTerminator(s[t])
  {
    assert s[..8] == Secure && s[8..12] == "www." && s[12..23] == Host;
    assert s[23..30] == "/watch?" && s[30..32] == Param;
    NoMatchInScheme(s, 8);
    NoMatchIn(s, 8, 12);
    assert OnOneLine(s[23..32]) by {
      assert OnOneLine("/watch?v=");
    }
    forall t | 23 <= t < 32
      ensures !IsLineTerminator(s[t])
    {
      assert s[t] == s[23..32][t - 23];
    }
  }

  /**
   * A watch link "https://www.youtube.com/watch?v=" + id gives id, for any id
   * that is non-empty, free of '&' and holds no further "v=".
   */
  lemma WatchLink(id: string)
    requires id != [] && '&' !in id
    requires forall t :: !IsAt(id, t, Param)
    ensures ExtractVideoId(WatchPage + id) == Some(id)
  {
    var s := WatchPage + id;
    assert s[..32] == WatchPage && s[32..] == id;
    WatchPageStart(s);
    NoParamInId(WatchPage, id);
    LastParamMatch(s, 12, 30);
    LeftmostMatch(s, 12, 32);
    TailIsId(s, 32, id);
  }

  /** first + "&" + key sits on one line when first and key do. */
  lemma OnOneLineJoin(first: string, key: string)
    requires OnOneLine(first) && OnOneLine(key)
    ensures OnOneLine(first + "&" + key)
  {
    var x := first + "&" + key;
    forall t | 0 <= t < |x|
      ensures !IsLineTerminator(x[t])
    {
      if t < |first| {
        assert x[t] == first[t];
      } else if t > |first| {
        assert x[t] == key[t - |first| - 1];
      }
    }
  }

  /**
   * After a one-line continuation of the watch page, a "v=" followed by a
   * value free of '&' and of further "v=" gives that value.
   */
  lemma LastParamOfLine(head: string, value: string)
    requires |head| >= 32 && head[..32] == WatchPage
    requires forall t :: 32 <= t < |head| ==> !IsLineTerminator(head[t])
    requires value != [] && '&' !in value
    requires forall t :: !IsAt(value, t, Param)
    ensures ExtractVideoId(head + Param + value) == Some(value)
  {
    var k := |head|;
    var s := head + Param + value;
    assert s[..32] == WatchPage && s[..k] == head;
    assert s[k..k + 2] == Param && s[k + 2..] == value;
    WatchPageStart(s);
    forall t | 32 <= t < k
      ensures !IsLineTerminator(s[t])
    {
      assert s[t] == head[t];
    }
    NoParamInId(head + Param, value);
    LastParamMatch(s, 12, k);
    LeftmostMatch(s, 12, k + 2);
    TailIsId(s, k + 2, value);
  }

  /**
   * Greedy `.*` takes the last working "v=" of the line: in
   * watch?v=<first>&<key>v=<value>, where the name of a later parameter ends
   * in 'v', the result is that parameter's value and not the video's.
   */
  lemma GreedyTakesLastParam(first: string, key: string, value: string)
    requires OnOneLine(first) && OnOneLine(key)
    requires value != [] && '&' !in value
    requires forall t :: !IsAt(value, t, Param)
    ensures ExtractVideoId(WatchPage + first + "&" + key + Param + value) == Some(value)
  {
    var middle := first + "&" + key;
    var head := WatchPage + first + "&" + key;
    assert head == WatchPage + middle;
    assert head[..32] == WatchPage;
    OnOneLineJoin(first, key);
    forall t | 32 <= t < |head|
      ensures !IsLineTerminator(head[t])
    {
      assert head[t] == middle[t - 32];
    }
    LastParamOfLine(head, value);
  }

  /** The instance "https://www.youtube.com/watch?v=abc&rev=1", which yields "1". */
  lemma GreedyExample()
    ensures ExtractVideoId(WatchPage + "abc" + "&" + "re" + Param + "1") == Some("1")
  {
    assert OnOneLine("abc") && OnOneLine("re");
    GreedyTakesLastParam("abc", "re", "1");
  }
}
