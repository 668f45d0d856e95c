/** The worked examples of `match_path`, stated on concrete byte strings. */
module PathMatchingExamples {
  import opened Wrappers
  import opened Text
  import opened UrlDecoding
  import opened PathMatching

  /** An ASCII path segment without "%" decodes to itself. */
  lemma PlainSegment(s: Text)
    requires IsAscii(s) && Percent !in s
    ensures Decodable(s) && UrlDecode(s) == s
  {
    PercentDecodeIdentity(s);
    AsciiIsValidUtf8(s);
  }

  /**
   * The shape of the doc example: two literal segments, then two captures,
   * against a path whose first two segments are those literals.
   */
  lemma TwoLiteralsTwoCaptures(pattern: Text, path: seq<Text>, x: Text, y: Text)
    requires |path| == 4 && Split(pattern) == [path[0], path[1], [Colon] + x, [Colon] + y]
    requires !IsCapture(path[0]) && !IsCapture(path[1])
    requires Decodable(path[2]) && Decodable(path[3]) && x != y
    ensures !Panics(Split(pattern), path)
    ensures Match(pattern, path) == Some(map[x := UrlDecode(path[2]), y := UrlDecode(path[3])])
  {
    var segs := Split(pattern);
    assert CaptureName(segs[2]) == x && CaptureName(segs[3]) == y;
    assert LiteralsAgree(segs, path, 4);
    assert CapturesUpTo(segs, path, 1) == map[];
    assert CapturesUpTo(segs, path, 2) == map[];
    assert CapturesUpTo(segs, path, 3) == map[x := UrlDecode(path[2])];
  }

  /**
   * The example in the doc comment of `match_path`: "foo/bar/:test/:this"
   * on foo, bar, not, that captures test as "not" and this as "that".
   */
  lemma DocExample()
    ensures var pattern := Ascii("foo/bar/:test/:this");
      var path := [Ascii("foo"), Ascii("bar"), Ascii("not"), Ascii("that")];
      && !Panics(Split(pattern), path)
      && Match(pattern, path) == Some(map[Ascii("test") := Ascii("not"), Ascii("this") := Ascii("that")])
  {
    var foo, bar, test, these := Ascii("foo"), Ascii("bar"), Ascii("test"), Ascii("this");
    var not, that := Ascii("not"), Ascii("that");
    var pattern := Ascii("foo/bar/:test/:this");
    assert "foo/bar/:test/:this" == "foo" + "/" + "bar" + "/:" + "test" + "/:" + "this";
    assert pattern == foo + [Slash] + bar + [Slash, Colon] + test + [Slash, Colon] + these;
    DocExampleBytes(pattern, foo, bar, test, these, not, that);
  }

  /** DocExample with each piece spelled out as bytes. */
  lemma DocExampleBytes(pattern: Text, foo: Text, bar: Text, test: Text, these: Text, not: Text, that: Text)
    requires pattern == foo + [Slash] + bar + [Slash, Colon] + test + [Slash, Colon] + these
    requires foo == [0x66, 0x6F, 0x6F] && bar == [0x62, 0x61, 0x72]
    requires test == [0x74, 0x65, 0x73, 0x74] && these == [0x74, 0x68, 0x69, 0x73]
    requires not == [0x6E, 0x6F, 0x74] && that == [0x74, 0x68, 0x61, 0x74]
    ensures !Panics(Split(pattern), [foo, bar, not, that])
    ensures Match(pattern, [foo, bar, not, that]) == Some(map[test := not, these := that])
  {
    var segs := [foo, bar, [Colon] + test, [Colon] + these];
    assert Join(segs[2..]) == [Colon] + test + [Slash] + [Colon] + these;
    assert Join(segs[1..]) == bar + [Slash] + Join(segs[2..]);
    assert pattern == Join(segs);
    SplitJoin(segs);
    PlainSegment(not);
    PlainSegment(that);
    TwoLiteralsTwoCaptures(pattern, [foo, bar, not, that], test, these);
  }

  /**
   * Duplicate capture names: ":id/:id" on x, y binds id to "y", the later
   * insert overwriting the earlier one.
   */
  lemma DuplicateNameExample()
    ensures !Panics(Split(Ascii(":id/:id")), [Ascii("x"), Ascii("y")])
    ensures Match(Ascii(":id/:id"), [Ascii("x"), Ascii("y")]) == Some(map[Ascii("id") := Ascii("y")])
  {
    var id, x, y := Ascii("id"), Ascii("x"), Ascii("y");
    assert ":id/:id" == ":" + "id" + "/:" + "id";
    DuplicateNameBytes(Ascii(":id/:id"), id, x, y);
  }

  /** DuplicateNameExample with each piece spelled out as bytes. */
  lemma DuplicateNameBytes(pattern: Text, id: Text, x: Text, y: Text)
    requires pattern == [Colon] + id + [Slash, Colon] + id
    requires id == [0x69, 0x64] && x == [0x78] && y == [0x79]
    ensures !Panics(Split(pattern), [x, y])
    ensures Match(pattern, [x, y]) == Some(map[id := y])
  {
    var segs := [[Colon] + id, [Colon] + id];
    assert pattern == Join(segs);
    SplitJoin(segs);
    PlainSegment(x);
    PlainSegment(y);
    assert CaptureName(segs[0]) == id && CaptureName(segs[1]) == id;
    assert Matches(segs, [x, y]);
    assert CapturesUpTo(segs, [x, y], 1) == map[id := x];
    assert CapturesUpTo(segs, [x, y], 2) == map[id := x][id := y] == map[id := y];
    assert Match(pattern, [x, y]) == Some(CapturesUpTo(segs, [x, y], 2));
  }
}
