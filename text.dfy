/**
 * Rust strings as the server code uses them: UTF-8 byte strings.  Splitting a
 * route pattern on "/" (`str::split`) and comparing segments (`!=`,
 * `starts_with`) both work byte by byte, so text is a sequence of bytes here.
 */
module Text {

  newtype byte = x: int | 0 <= x < 256

  type Text = seq<byte>

  const Slash: byte := 0x2F    // '/'
  const Colon: byte := 0x3A    // ':'
  const Percent: byte := 0x25  // '%'

  /** The bytes of an ASCII string literal. */
  function Ascii(s: string): (r: Text)
    requires forall i | 0 <= i < |s| :: s[i] as int < 128
    ensures |r| == |s|
  {
    seq(|s|, i requires 0 <= i < |s| => s[i] as int as byte)
  }

  /**
   * `s.split("/")` collected into a vector: the pieces between slashes, in
   * order.  There is always at least one piece: "" gives [""], "a/" gives
   * ["a", ""].
   */
  function Split(s: Text): (r: seq<Text>)
    ensures |r| >= 1
  {
    if s == [] then [[]]
    else
      var rest := Split(s[1..]);
      if s[0] == Slash then [[]] + rest else [[s[0]] + rest[0]] + rest[1..]
  }

  /** The pieces put back together with "/" between them. */
  function Join(segs: seq<Text>): Text
    requires |segs| >= 1
  {
    if |segs| == 1 then segs[0] else segs[0] + [Slash] + Join(segs[1..])
  }

  predicate NoSlash(segs: seq<Text>)
  {
    forall k | 0 <= k < |segs| :: Slash !in segs[k]
  }

  /** No piece of a split contains the separator. */
  lemma {:induction false} SplitHasNoSlash(s: Text)
    ensures NoSlash(Split(s))
  {
    if s != [] {
      SplitHasNoSlash(s[1..]);
    }
  }

  /** Splitting loses nothing: joining the pieces gives the text back. */
  lemma {:induction false} JoinSplit(s: Text)
    ensures Join(Split(s)) == s
  {
    if s != [] {
      var rest := Split(s[1..]);
      JoinSplit(s[1..]);
      if s[0] == Slash {
        assert Split(s) == [[]] + rest;
        assert Join(Split(s)) == [] + [Slash] + Join(rest);
      } else if |rest| == 1 {
        assert Join(Split(s)) == [s[0]] + rest[0];
      } else {
        assert Join(rest) == rest[0] + [Slash] + Join(rest[1..]);
        assert Split(s)[1..] == rest[1..];
        assert Join(Split(s)) == [s[0]] + rest[0] + [Slash] + Join(rest[1..]);
      }
    }
  }

  /** A slash-free prefix is glued onto the first piece of what follows it. */
  lemma {:induction false} SplitSlashFreePrefix(a: Text, t: Text)
    requires Slash !in a
    ensures Split(a + t) == [a + Split(t)[0]] + Split(t)[1..]
  {
    if a != [] {
      var r := Split(t);
      SplitSlashFreePrefix(a[1..], t);
      assert (a + t)[1..] == a[1..] + t;
      var rest := Split(a[1..] + t);
      assert rest == [a[1..] + r[0]] + r[1..];
      assert (a + t)[0] == a[0] && a[0] != Slash;
      assert Split(a + t) == [[a[0]] + rest[0]] + rest[1..];
      assert [a[0]] + (a[1..] + r[0]) == a + r[0];
    } else {
      var r := Split(t);
      assert a + t == t && a + r[0] == r[0];
      assert r == [r[0]] + r[1..];
    }
  }

  /**
   * Splitting undoes joining, for pieces without a slash: together with
   * JoinSplit, Split is a bijection between byte strings and non-empty lists
   * of slash-free pieces.
   */
  lemma {:induction false} SplitJoin(segs: seq<Text>)
    requires |segs| >= 1 && NoSlash(segs)
    ensures Split(Join(segs)) == segs
  {
    if |segs| == 1 {
      SplitSlashFreePrefix(segs[0], []);
      assert segs[0] + [] == segs[0];
    } else {
      var j := Join(segs[1..]);
      SplitJoin(segs[1..]);
      assert Split([Slash] + j) == [[]] + Split(j);
      SplitSlashFreePrefix(segs[0], [Slash] + j);
      assert segs[0] + [Slash] + j == segs[0] + ([Slash] + j);
      assert segs[0] + [] == segs[0];
    }
  }
}
