/**
 * `match_path` (src/main.rs): match a route pattern such as
 * "foo/bar/:test/:this" against the segments of a request path, collecting
 * the named captures.
 */
module PathMatching {
  import opened Wrappers
  import opened Text
  import opened UrlDecoding

  /** Capture name to percent-decoded path segment (the source's HashMap). */
  type Captures = map<Text, Text>

  /** A pattern segment that starts with ":" captures; any other is literal. */
  predicate IsCapture(seg: Text)
  {
    |seg| > 0 && seg[0] == Colon
  }

  /** The name a capture segment binds: the segment after its ":". */
  function CaptureName(seg: Text): Text
    requires IsCapture(seg)
  {
    seg[1..]
  }

  /** Each literal pattern segment before position `n` equals the path segment there. */
  predicate LiteralsAgree(segs: seq<Text>, path: seq<Text>, n: nat)
    requires n <= |segs| && n <= |path|
  {
    forall j | 0 <= j < n :: !IsCapture(segs[j]) ==> segs[j] == path[j]
  }

  /**
   * When a pattern matches a path: as many segments, and every literal
   * segment equal to the path segment at its position.
   */
  predicate Matches(segs: seq<Text>, path: seq<Text>)
  {
    |segs| == |path| && LiteralsAgree(segs, path, |segs|)
  }

  /** `urldecode` accepts the segment (it decodes to valid UTF-8). */
  predicate Decodable(seg: Text)
  {
    ValidUtf8(PercentDecode(seg))
  }

  /** Every capture before position `n` has a decodable path segment. */
  predicate CapturesDecodable(segs: seq<Text>, path: seq<Text>, n: nat)
    requires n <= |segs| && n <= |path|
  {
    forall j | 0 <= j < n :: IsCapture(segs[j]) ==> Decodable(path[j])
  }

  /**
   * The scan of `match_path` panics: the lengths agree, and before any
   * literal mismatch it reaches a capture whose path segment does not decode.
   */
  predicate Panics(segs: seq<Text>, path: seq<Text>)
  {
    |segs| == |path| &&
    exists i | 0 <= i < |segs| :: IsCapture(segs[i]) && !Decodable(path[i]) && LiteralsAgree(segs, path, i)
  }

  /**
   * The captures after the first `n` positions: each capture segment in
   * turn inserts its name with the decoded path segment, so a later
   * position overwrites an earlier one of the same name.
   */
  function CapturesUpTo(segs: seq<Text>, path: seq<Text>, n: nat): Captures
    requires n <= |segs| && n <= |path|
    requires CapturesDecodable(segs, path, n)
  {
    if n == 0 then map[]
    else
      var m := CapturesUpTo(segs, path, n - 1);
      if IsCapture(segs[n - 1]) then m[CaptureName(segs[n - 1]) := UrlDecode(path[n - 1])] else m
  }

  /** A matching pattern whose scan does not panic decodes all its captures. */
  lemma MatchDecodable(segs: seq<Text>, path: seq<Text>)
    requires Matches(segs, path) && !Panics(segs, path)
    ensures CapturesDecodable(segs, path, |segs|)
  {
  }

  /** What `match_path(pattern, path)` returns. */
  function Match(pattern: Text, path: seq<Text>): (r: Option<Captures>)
    requires !Panics(Split(pattern), path)
    ensures r.Some? <==> Matches(Split(pattern), path)
  {
    var segs := Split(pattern);
    if Matches(segs, path) then
      MatchDecodable(segs, path);
      Some(CapturesUpTo(segs, path, |segs|))
    else None
  }

  /**
   * `match_path`: split the pattern on "/", give up when the segment counts
   * differ, then walk pattern and path together, inserting each capture and
   * returning None at the first literal that differs.
   */
  method MatchPath(pattern: Text, path: seq<Text>) returns (r: Option<Captures>)
    requires !Panics(Split(pattern), path)
    ensures r == Match(pattern, path)
  {
    var captures: Captures := map[];
    var p := Split(pattern);
    if |p| != |path| {
      return None;
    }
    var i := 0;
    while i < |p|
      invariant 0 <= i <= |p|
      invariant LiteralsAgree(p, path, i)
      invariant CapturesDecodable(p, path, i)
      invariant captures == CapturesUpTo(p, path, i)
    {
      if IsCapture(p[i]) {
        captures := captures[CaptureName(p[i]) := UrlDecode(path[i])];
      } else if p[i] != path[i] {
        return None;
      }
      i := i + 1;
    }
    return Some(captures);
  }

  /** Segment counts that differ never match, whatever the segments hold. */
  lemma MatchLengthMismatch(pattern: Text, path: seq<Text>)
    requires |Split(pattern)| != |path|
    ensures !Panics(Split(pattern), path) && Match(pattern, path) == None
  {
  }

  /** With equal counts, one literal segment that differs defeats the match. */
  lemma MatchLiteralMismatch(pattern: Text, path: seq<Text>, i: nat)
    requires !Panics(Split(pattern), path)
    requires |Split(pattern)| == |path| && i < |path|
    requires !IsCapture(Split(pattern)[i]) && Split(pattern)[i] != path[i]
    ensures Match(pattern, path) == None
  {
  }

  /** Position `j` holds the last capture of its name before position `n`. */
  predicate LastBinding(segs: seq<Text>, n: nat, j: nat)
    requires j < n <= |segs|
  {
    IsCapture(segs[j]) &&
    forall k | j < k < n :: IsCapture(segs[k]) ==> CaptureName(segs[k]) != CaptureName(segs[j])
  }

  /** The keys of the captures are exactly the names of the capture segments. */
  lemma {:induction false} CapturesUpToKeys(segs: seq<Text>, path: seq<Text>, n: nat)
    requires n <= |segs| && n <= |path|
    requires CapturesDecodable(segs, path, n)
    ensures forall name :: name in CapturesUpTo(segs, path, n) <==>
      exists j | 0 <= j < n :: IsCapture(segs[j]) && CaptureName(segs[j]) == name
  {
    if n > 0 {
      CapturesUpToKeys(segs, path, n - 1);
    }
  }

  /** Each name maps to the decoded path segment at its last capture position. */
  lemma {:induction false} CapturesUpToLast(segs: seq<Text>, path: seq<Text>, n: nat, j: nat)
    requires j < n <= |segs| && n <= |path|
    requires CapturesDecodable(segs, path, n)
    requires LastBinding(segs, n, j)
    ensures CaptureName(segs[j]) in CapturesUpTo(segs, path, n)
    ensures CapturesUpTo(segs, path, n)[CaptureName(segs[j])] == UrlDecode(path[j])
  {
    if j < n - 1 {
      CapturesUpToLast(segs, path, n - 1, j);
    }
  }

  /**
   * A successful match binds exactly the capture names, each to the decoded
   * path segment at the last position that captures it.
   */
  lemma MatchCaptures(pattern: Text, path: seq<Text>)
    requires Matches(Split(pattern), path) && !Panics(Split(pattern), path)
    ensures Match(pattern, path).Some?
    ensures var segs, m := Split(pattern), Match(pattern, path).value;
      && (forall name :: name in m <==>
            exists j | 0 <= j < |segs| :: IsCapture(segs[j]) && CaptureName(segs[j]) == name)
      && (forall j | 0 <= j < |segs| && LastBinding(segs, |segs|, j) ::
            CaptureName(segs[j]) in m && m[CaptureName(segs[j])] == UrlDecode(path[j]))
  {
    var segs := Split(pattern);
    MatchDecodable(segs, path);
    CapturesUpToKeys(segs, path, |segs|);
    forall j | 0 <= j < |segs| && LastBinding(segs, |segs|, j)
      ensures CaptureName(segs[j]) in CapturesUpTo(segs, path, |segs|)
      ensures CapturesUpTo(segs, path, |segs|)[CaptureName(segs[j])] == UrlDecode(path[j])
    {
      CapturesUpToLast(segs, path, |segs|, j);
    }
  }

  /**
   * A pattern without capture segments matches exactly the path made of its
   * own segments, and then captures nothing.
   */
  lemma LiteralPatternMatch(pattern: Text, path: seq<Text>)
    requires forall j | 0 <= j < |Split(pattern)| :: !IsCapture(Split(pattern)[j])
    ensures !Panics(Split(pattern), path)
    ensures Match(pattern, path).Some? <==> Split(pattern) == path
    ensures Match(pattern, path).Some? ==> Match(pattern, path).value == map[]
  {
    var segs := Split(pattern);
    if Matches(segs, path) {
      assert segs == path;
      CapturesUpToKeys(segs, path, |segs|);
    }
  }
}
