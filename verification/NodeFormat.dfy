/**
 The node-tree file format: what the writer emits, what the recursive parser accepts,
 and how far the two are inverse to each other.
 */
module NodeFormat {
  import opened Basics

  const ESCAPE_CHAR: Byte := 0xFD
  const NODE_START: Byte := 0xFE
  const NODE_END: Byte := 0xFF

  // A node is  START, type, escaped properties, child nodes, END.  The writer escapes the type
  // byte but the parser reads it raw, so the round trip does not hold for every type byte.

  /** First-child / next-sibling trees, the shape of NodeStruct. */
  datatype Forest = Nil | Cons(typ: Byte, props: seq<Byte>, child: Forest, next: Forest)

  /** What the parser records: positions in the file instead of property bytes. */
  datatype Index = NoNode | Node(start: nat, size: nat, typ: Byte, child: Index, next: Index)

  datatype ParseResult = Fail | Ok(index: Index, pos: nat)

  predicate IsDelimiter(b: Byte) { b == NODE_START || b == NODE_END }

  predicate IsSpecial(b: Byte) { IsDelimiter(b) || b == ESCAPE_CHAR }

  // ---------------------------------------------------------------- writer

  /** The bytes that writeData emits for `data` when escaping is on. */
  function Escape(data: seq<Byte>): seq<Byte>
  {
    if data == [] then []
    else (if IsSpecial(data[0]) then [ESCAPE_CHAR, data[0]] else [data[0]]) + Escape(data[1..])
  }

  /** startNode, setProps, the children, endNode, then the siblings. */
  function Write(f: Forest): seq<Byte>
  {
    match f
    case Nil => []
    case Cons(typ, props, child, next) =>
      [NODE_START] + Escape([typ]) + Escape(props) + Write(child) + [NODE_END] + Write(next)
  }

  // ---------------------------------------------------------------- parser

  /** The first delimiter at or after `i` that is not preceded by an escape; None at end of file. */
  function Scan(s: seq<Byte>, i: nat): (r: Option<nat>)
    requires i <= |s|
    ensures r.Some? ==> i <= r.value < |s| && IsDelimiter(s[r.value])
    decreases |s| - i
  {
    if i == |s| then None
    else if IsDelimiter(s[i]) then Some(i)
    else if s[i] == ESCAPE_CHAR then (if i + 1 == |s| then None else Scan(s, i + 2))
    else Scan(s, i + 1)
  }

  /**
   What parseNode does for the node whose START byte is at `start` and for its later siblings.
   `pos` is where the cursor is left: at the END byte of the parent, which has been read once
   and is stepped back over, or at the end of the file.
   */
  function Parse(s: seq<Byte>, start: nat): (r: ParseResult)
    requires start < |s|
    ensures r.Ok? ==> Accepted(s, start, r) && r.index.Node?
    decreases |s| - start, 1
  {
    if start + 1 >= |s| then Fail
    else
      match Scan(s, start + 2)
      case None => Fail
      case Some(d) =>
        var kids := ParseKids(s, d);
        if kids.Fail? || kids.pos >= |s| then Fail
        else
          var rest := ParseRest(s, kids.pos);
          if rest.Fail? then Fail
          else Ok(Node(start, d - start - 2, s[start + 1], kids.index, rest.index), rest.pos)
  }

  /** The children, if the delimiter at `d` that ends the properties is a START byte. */
  function ParseKids(s: seq<Byte>, d: nat): (r: ParseResult)
    requires d < |s| && IsDelimiter(s[d])
    ensures r.Ok? ==> Accepted(s, d, r)
    ensures r.Ok? ==> (r.index.Node? <==> s[d] == NODE_START)
    decreases |s| - d, 2
  {
    if s[d] == NODE_START then Parse(s, d) else Ok(NoNode, d)
  }

  /** The later siblings, after the END byte at `e`. */
  function ParseRest(s: seq<Byte>, e: nat): (r: ParseResult)
    requires e < |s|
    ensures r.Ok? ==> Accepted(s, e + 1, r)
    ensures r.Ok? ==> (r.index.Node? <==> e + 1 < |s| && s[e + 1] == NODE_START)
    decreases |s| - e, 0
  {
    if e + 1 == |s| then Ok(NoNode, e + 1)
    else if s[e + 1] == NODE_START then Parse(s, e + 1)
    else if s[e + 1] == NODE_END then Ok(NoNode, e + 1)
    else Fail
  }

  /** All recorded stretches lie inside the file. */
  predicate InFile(s: seq<Byte>, x: Index)
  {
    x.NoNode? || (x.start + 2 + x.size <= |s| && InFile(s, x.child) && InFile(s, x.next))
  }

  /** Where the cursor can be left: at the parent's END byte or at the end of the file. */
  predicate EndsAt(s: seq<Byte>, j: nat)
  {
    j == |s| || (j < |s| && s[j] == NODE_END)
  }

  predicate Accepted(s: seq<Byte>, from: nat, r: ParseResult)
    requires r.Ok?
  {
    && from <= r.pos && EndsAt(s, r.pos) && InFile(s, r.index)
    && if r.index.NoNode? then r.pos == from else r.index.start == from && from + 2 < r.pos
  }

  // ---------------------------------------------------------------- properties

  /** A stretch of file without an unescaped delimiter and without a dangling escape. */
  predicate Clean(r: seq<Byte>)
  {
    if r == [] then true
    else if r[0] == ESCAPE_CHAR then |r| >= 2 && Clean(r[2..])
    else !IsDelimiter(r[0]) && Clean(r[1..])
  }

  /** The bytes that getProps delivers for a clean stretch. */
  function Unescape(r: seq<Byte>): (data: seq<Byte>)
    ensures |data| <= |r|
  {
    if r == [] then []
    else if r[0] == ESCAPE_CHAR then (if |r| == 1 then [] else [r[1]] + Unescape(r[2..]))
    else [r[0]] + Unescape(r[1..])
  }

  /** The forest that a reader obtains by walking the index and calling getProps on each node. */
  function Decode(s: seq<Byte>, x: Index): Forest
    requires InFile(s, x)
  {
    match x
    case NoNode => Nil
    case Node(start, size, typ, child, next) =>
      Cons(typ, Unescape(s[start + 2..start + 2 + size]), Decode(s, child), Decode(s, next))
  }

  function Region(s: seq<Byte>, x: Index): seq<Byte>
    requires x.Node? && InFile(s, x)
  {
    s[x.start + 2..x.start + 2 + x.size]
  }

  /** The file text that an index stands for, with every property stretch as it is in the file. */
  function Render(s: seq<Byte>, x: Index): seq<Byte>
    requires InFile(s, x)
  {
    match x
    case NoNode => []
    case Node(_, _, typ, child, next) =>
      [NODE_START, typ] + Region(s, x) + Render(s, child) + [NODE_END] + Render(s, next)
  }

  /**
   The nodes of `x` lie in s[lo..hi] as the format demands: a START byte, the type, a clean
   property stretch, the children strictly inside their parent and after its properties, an END
   byte, and only then the next sibling.
   */
  ghost predicate Placed(s: seq<Byte>, x: Index, lo: nat, hi: nat)
    decreases x, 1
  {
    (x.NoNode? && lo <= hi) ||
    (x.Node? && lo <= x.start && x.start + 2 + x.size < hi <= |s|
     && s[x.start] == NODE_START && s[x.start + 1] == x.typ && Clean(s[x.start + 2..x.start + 2 + x.size])
     && exists e: nat :: ClosedAt(s, x, e, hi))
  }

  ghost predicate ClosedAt(s: seq<Byte>, x: Index, e: nat, hi: nat)
    requires x.Node?
    decreases x, 0
  {
    && x.start + 2 + x.size <= e < hi <= |s|
    && s[e] == NODE_END
    && Placed(s, x.child, x.start + 2 + x.size, e)
    && Placed(s, x.next, e + 1, hi)
  }

  // ---------------------------------------------------------------- escaping

  lemma {:induction false} EscapeInverse(data: seq<Byte>)
    ensures Clean(Escape(data))
    ensures Unescape(Escape(data)) == data
  {
    if data != [] {
      EscapeInverse(data[1..]);
      var e := Escape(data);
      if IsSpecial(data[0]) {
        assert e[2..] == Escape(data[1..]);
      } else {
        assert e[1..] == Escape(data[1..]);
      }
    }
  }

  lemma {:induction false} ScanOverClean(s: seq<Byte>, i: nat, r: seq<Byte>)
    requires i + |r| <= |s| && s[i..i + |r|] == r && Clean(r)
    ensures Scan(s, i) == Scan(s, i + |r|)
    decreases |r|
  {
    if r != [] {
      assert s[i] == r[0];
      if r[0] == ESCAPE_CHAR {
        assert s[i + 2..i + |r|] == r[2..];
        ScanOverClean(s, i + 2, r[2..]);
      } else {
        assert s[i + 1..i + |r|] == r[1..];
        ScanOverClean(s, i + 1, r[1..]);
      }
    }
  }

  lemma ScanTo(s: seq<Byte>, i: nat, r: seq<Byte>)
    requires At(s, i, r) && Clean(r) && i + |r| < |s| && IsDelimiter(s[i + |r|])
    ensures Scan(s, i) == Some(i + |r|)
  {
    ScanOverClean(s, i, r);
  }

  lemma {:induction false} ScannedIsClean(s: seq<Byte>, i: nat)
    requires i <= |s| && Scan(s, i).Some?
    ensures Clean(s[i..Scan(s, i).value])
    decreases |s| - i
  {
    var d := Scan(s, i).value;
    if i < d {
      var r := s[i..d];
      if s[i] == ESCAPE_CHAR {
        ScannedIsClean(s, i + 2);
        assert r[2..] == s[i + 2..d];
      } else {
        ScannedIsClean(s, i + 1);
        assert r[1..] == s[i + 1..d];
      }
    }
  }

  // ---------------------------------------------------------------- what acceptance means

  lemma Joined(s: seq<Byte>, a: nat, b: nat, c: nat)
    ensures a <= b <= c <= |s| ==> s[a..b] + s[b..c] == s[a..c]
  {}

  /** Two bytes, a stretch, another stretch, one byte, a third stretch. */
  lemma JoinedNode(s: seq<Byte>, a: nat, d: nat, e: nat, z: nat)
    requires a + 2 <= d <= e < z <= |s|
    ensures [s[a], s[a + 1]] + s[a + 2..d] + s[d..e] + [s[e]] + s[e + 1..z] == s[a..z]
  {
    assert [s[a], s[a + 1]] == s[a..a + 2];
    assert [s[e]] == s[e..e + 1];
    Joined(s, a, a + 2, d);
    Joined(s, a, d, e);
    Joined(s, a, e, e + 1);
    Joined(s, a, e + 1, z);
  }

  /** Re-rendering one node from its parts. */
  lemma RenderNode(s: seq<Byte>, x: Index, e: nat, z: nat)
    requires x.Node? && InFile(s, x)
    requires x.start + 2 + x.size <= e < z <= |s|
    requires s[x.start] == NODE_START && s[x.start + 1] == x.typ && s[e] == NODE_END
    requires Render(s, x.child) == s[x.start + 2 + x.size..e]
    requires Render(s, x.next) == s[e + 1..z]
    ensures Render(s, x) == s[x.start..z]
  {
    JoinedNode(s, x.start, x.start + 2 + x.size, e, z);
  }

  lemma PlacedNode(s: seq<Byte>, x: Index, lo: nat, e: nat, hi: nat)
    requires x.Node? && lo <= x.start && ClosedAt(s, x, e, hi)
    requires s[x.start] == NODE_START && s[x.start + 1] == x.typ
    requires Clean(s[x.start + 2..x.start + 2 + x.size])
    ensures Placed(s, x, lo, hi)
  {}

  ghost predicate Sound(s: seq<Byte>, x: Index, lo: nat, hi: nat)
  {
    hi <= |s| && InFile(s, x) && Placed(s, x, lo, hi) && lo <= hi && Render(s, x) == s[lo..hi]
  }

  lemma {:induction false} KidsSound(s: seq<Byte>, d: nat)
    requires d < |s| && IsDelimiter(s[d]) && ParseKids(s, d).Ok?
    ensures Sound(s, ParseKids(s, d).index, d, ParseKids(s, d).pos)
    decreases |s| - d, 2
  {
    if s[d] == NODE_START {
      ParseSound(s, d);
    } else {
      assert Placed(s, NoNode, d, d);
    }
  }

  lemma {:induction false} RestSound(s: seq<Byte>, e: nat)
    requires e < |s| && ParseRest(s, e).Ok?
    ensures Sound(s, ParseRest(s, e).index, e + 1, ParseRest(s, e).pos)
    decreases |s| - e, 0
  {
    if e + 1 < |s| && s[e + 1] == NODE_START {
      ParseSound(s, e + 1);
    } else {
      assert Placed(s, NoNode, e + 1, e + 1);
    }
  }

  /**
   Whatever bytes the parser accepts: every recorded stretch is inside the file and clean, nodes
   nest and siblings follow each other, and the index re-renders to exactly the bytes consumed.
   */
  lemma {:induction false} ParseSound(s: seq<Byte>, start: nat)
    requires start < |s| && s[start] == NODE_START && Parse(s, start).Ok?
    ensures Sound(s, Parse(s, start).index, start, Parse(s, start).pos)
    decreases |s| - start, 1
  {
    hide Render, Clean, Scan, ParseKids, ParseRest;
    var x := Parse(s, start).index;
    var z := Parse(s, start).pos;
    var d := Scan(s, start + 2).value;
    var e := ParseKids(s, d).pos;
    ScannedIsClean(s, start + 2);
    KidsSound(s, d);
    RestSound(s, e);
    assert x.start + 2 + x.size == d;
    assert ClosedAt(s, x, e, z);
    PlacedNode(s, x, start, e, z);
    RenderNode(s, x, e, z);
  }

  // ---------------------------------------------------------------- round trip

  /**
   Property bytes that survive a type byte equal to the escape character: a run of escape
   characters followed by a byte that needs no escape.
   */
  predicate HeadSurvives(props: seq<Byte>)
  {
    props != [] && (if props[0] == ESCAPE_CHAR then HeadSurvives(props[1..]) else !IsSpecial(props[0]))
  }

  predicate NodeSurvives(typ: Byte, props: seq<Byte>)
  {
    typ < ESCAPE_CHAR || (typ == ESCAPE_CHAR && HeadSurvives(props))
  }

  predicate Survives(f: Forest)
  {
    f.Nil? || (NodeSurvives(f.typ, f.props) && Survives(f.child) && Survives(f.next))
  }

  predicate PlainTypes(f: Forest)
  {
    f.Nil? || (f.typ < ESCAPE_CHAR && PlainTypes(f.child) && PlainTypes(f.next))
  }

  /** `part` stands in `s` at offset `i`. */
  predicate At(s: seq<Byte>, i: nat, part: seq<Byte>)
  {
    i + |part| <= |s| && s[i..i + |part|] == part
  }

  lemma AtSplit(s: seq<Byte>, i: nat, a: seq<Byte>, b: seq<Byte>)
    requires At(s, i, a + b)
    ensures i + |a| + |b| <= |s| && At(s, i, a) && At(s, i + |a|, b)
  {
    assert s[i..i + |a|] == (a + b)[..|a|];
    assert s[i + |a|..i + |a| + |b|] == (a + b)[|a|..];
  }

  lemma AtFirst(s: seq<Byte>, i: nat, part: seq<Byte>)
    requires At(s, i, part) && part != []
    ensures i < |s| && s[i] == part[0]
  {
    assert s[i] == s[i..i + |part|][0];
  }

  /** What the parser will take for the type byte. */
  function Head(typ: Byte): Byte { if IsSpecial(typ) then ESCAPE_CHAR else typ }

  /** The bytes between the raw type byte and the first delimiter, as the parser will see them. */
  function Payload(typ: Byte, props: seq<Byte>): seq<Byte>
  {
    (if IsSpecial(typ) then [typ] else []) + Escape(props)
  }

  /** An escaped byte in front of a clean stretch. */
  lemma EscapedFront(b: Byte, rest: seq<Byte>)
    ensures Clean([ESCAPE_CHAR, b] + rest) == Clean(rest)
    ensures Unescape([ESCAPE_CHAR, b] + rest) == [b] + Unescape(rest)
  {
    assert ([ESCAPE_CHAR, b] + rest)[2..] == rest;
  }

  lemma {:induction false} PayloadSurvives(props: seq<Byte>)
    requires HeadSurvives(props)
    ensures Clean([ESCAPE_CHAR] + Escape(props))
    ensures Unescape([ESCAPE_CHAR] + Escape(props)) == props
  {
    hide Clean, Unescape;
    var b, rest := props[0], props[1..];
    if b == ESCAPE_CHAR {
      PayloadSurvives(rest);
      assert [ESCAPE_CHAR] + Escape(props) == [ESCAPE_CHAR, b] + ([ESCAPE_CHAR] + Escape(rest));
      EscapedFront(b, [ESCAPE_CHAR] + Escape(rest));
    } else {
      EscapeInverse(rest);
      assert [ESCAPE_CHAR] + Escape(props) == [ESCAPE_CHAR, b] + Escape(rest);
      EscapedFront(b, Escape(rest));
    }
  }

  lemma NodePayload(typ: Byte, props: seq<Byte>)
    requires NodeSurvives(typ, props)
    ensures Clean(Payload(typ, props)) && (Unescape(Payload(typ, props)), Head(typ)) == (props, typ)
  {
    if typ == ESCAPE_CHAR {
      PayloadSurvives(props);
    } else {
      EscapeInverse(props);
      assert Payload(typ, props) == Escape(props);
    }
  }

  lemma Assoc(a: seq<Byte>, b: seq<Byte>, c: seq<Byte>)
    ensures a + b + c == a + (b + c)
  {}

  lemma WrittenHead(typ: Byte)
    ensures [NODE_START] + Escape([typ]) == [NODE_START, Head(typ)] + (if IsSpecial(typ) then [typ] else [])
  {
    assert Escape([typ]) == if IsSpecial(typ) then [ESCAPE_CHAR, typ] else [typ];
  }

  lemma WrittenParts(f: Forest)
    requires f.Cons?
    ensures Write(f) == [NODE_START, Head(f.typ)]
              + (Payload(f.typ, f.props) + (Write(f.child) + ([NODE_END] + Write(f.next))))
  {
    var h := [NODE_START, Head(f.typ)];
    var mark: seq<Byte> := if IsSpecial(f.typ) then [f.typ] else [];
    var p, w, n := Payload(f.typ, f.props), Write(f.child), Write(f.next);
    WrittenHead(f.typ);
    Assoc(h, mark, Escape(f.props));
    assert Write(f) == h + p + w + [NODE_END] + n;
    Assoc(h + p + w, [NODE_END], n);
    Assoc(h + p, w, [NODE_END] + n);
    Assoc(h, p, w + ([NODE_END] + n));
  }

  /** Where the children of a written node start, and where its END byte stands. */
  function KidsAt(i: nat, f: Forest): nat requires f.Cons? { i + 2 + |Payload(f.typ, f.props)| }

  function EndAt(i: nat, f: Forest): nat requires f.Cons? { KidsAt(i, f) + |Write(f.child)| }

  /** A written node, cut into the pieces the parser reads. */
  lemma WrittenNode(s: seq<Byte>, i: nat, f: Forest)
    requires f.Cons? && At(s, i, Write(f))
    ensures EndAt(i, f) < |s| && i + |Write(f)| == EndAt(i, f) + 1 + |Write(f.next)|
    ensures s[i] == NODE_START && s[i + 1] == Head(f.typ) && s[EndAt(i, f)] == NODE_END
    ensures At(s, i + 2, Payload(f.typ, f.props))
    ensures At(s, KidsAt(i, f), Write(f.child))
    ensures At(s, EndAt(i, f) + 1, Write(f.next))
  {
    hide Write, Escape, Payload, At;
    WrittenParts(f);
    var p, w, n := Payload(f.typ, f.props), Write(f.child), Write(f.next);
    var h := [NODE_START, Head(f.typ)];
    assert |Write(f)| == 2 + (|p| + (|w| + (1 + |n|)));
    AtSplit(s, i, h, p + (w + ([NODE_END] + n)));
    AtSplit(s, i + 2, p, w + ([NODE_END] + n));
    AtSplit(s, KidsAt(i, f), w, [NODE_END] + n);
    AtSplit(s, EndAt(i, f), [NODE_END], n);
    AtFirst(s, EndAt(i, f), [NODE_END]);
    assert h == [NODE_START] + [Head(f.typ)];
    AtSplit(s, i, [NODE_START], [Head(f.typ)]);
    AtFirst(s, i, [NODE_START]);
    AtFirst(s, i + 1, [Head(f.typ)]);
  }

  /** A written forest starts with START unless it is empty. */
  lemma WriteHead(s: seq<Byte>, i: nat, f: Forest)
    requires At(s, i, Write(f))
    ensures f.Nil? ==> Write(f) == []
    ensures f.Cons? ==> i < |s| && s[i] == NODE_START
  {
    if f.Cons? {
      WrittenNode(s, i, f);
    }
  }

  /** The parse `r` stands for the forest `f` and stops at `j`. */
  predicate Reads(s: seq<Byte>, r: ParseResult, f: Forest, j: nat)
  {
    r.Ok? && r.pos == j && InFile(s, r.index) && Decode(s, r.index) == f
  }

  /** The parser stops its scan exactly where the payload ends. */
  lemma PayloadScanned(s: seq<Byte>, i: nat, f: Forest)
    requires f.Cons? && NodeSurvives(f.typ, f.props) && At(s, i + 2, Payload(f.typ, f.props))
    requires KidsAt(i, f) < |s| && IsDelimiter(s[KidsAt(i, f)])
    ensures Scan(s, i + 2) == Some(KidsAt(i, f))
  {
    hide Scan, At, Payload, Escape;
    NodePayload(f.typ, f.props);
    ScanTo(s, i + 2, Payload(f.typ, f.props));
  }

  /** One node from its parts. */
  lemma ReadsNode(s: seq<Byte>, i: nat, d: nat, f: Forest, e: nat, j: nat)
    requires f.Cons? && i + 2 <= d < |s| && s[i + 1] == f.typ && Scan(s, i + 2) == Some(d)
    requires Unescape(s[i + 2..d]) == f.props
    requires IsDelimiter(s[d]) && Reads(s, ParseKids(s, d), f.child, e)
    requires e < |s| && Reads(s, ParseRest(s, e), f.next, j)
    ensures Reads(s, Parse(s, i), f, j)
  {
    var x := Parse(s, i).index;
    assert x.start + 2 + x.size == d;
  }

  lemma {:induction false} KidsBack(s: seq<Byte>, c: nat, f: Forest)
    requires Survives(f) && At(s, c, Write(f))
    requires c + |Write(f)| < |s| && s[c + |Write(f)|] == NODE_END
    ensures IsDelimiter(s[c]) && Reads(s, ParseKids(s, c), f, c + |Write(f)|)
    decreases f, 1
  {
    hide Write;
    WriteHead(s, c, f);
    if f.Cons? {
      ReadsBack(s, c, f);
    }
  }

  lemma {:induction false} RestBack(s: seq<Byte>, e: nat, f: Forest)
    requires Survives(f) && e < |s| && At(s, e + 1, Write(f)) && EndsAt(s, e + 1 + |Write(f)|)
    ensures Reads(s, ParseRest(s, e), f, e + 1 + |Write(f)|)
    decreases f, 1
  {
    hide Write;
    WriteHead(s, e + 1, f);
    if f.Cons? {
      ReadsBack(s, e + 1, f);
    }
  }

  /** Surviving forests are read back as they were written. */
  lemma {:induction false} ReadsBack(s: seq<Byte>, i: nat, f: Forest)
    requires f.Cons? && Survives(f) && At(s, i, Write(f)) && EndsAt(s, i + |Write(f)|)
    ensures i < |s| && Reads(s, Parse(s, i), f, i + |Write(f)|)
    decreases f, 0
  {
    hide Write, Escape, Payload, Scan, Unescape, Parse, Clean;
    WrittenNode(s, i, f);
    NodePayload(f.typ, f.props);
    var c := KidsAt(i, f);
    KidsBack(s, c, f.child);
    PayloadScanned(s, i, f);
    RestBack(s, EndAt(i, f), f.next);
    ReadsNode(s, i, c, f, EndAt(i, f), i + |Write(f)|);
  }

  /** A head that does not survive is read back as different property bytes. */
  lemma {:induction false} BrokenPayload(s: seq<Byte>, j: nat, props: seq<Byte>)
    requires !HeadSurvives(props) && At(s, j, [ESCAPE_CHAR] + Escape(props))
    requires var k := j + 1 + |Escape(props)|; k < |s| && IsDelimiter(s[k])
    requires Scan(s, j).Some?
    ensures Unescape(s[j..Scan(s, j).value]) != props
    decreases |props|
  {
    var d := Scan(s, j).value;
    var w := [ESCAPE_CHAR] + Escape(props);
    assert s[j..j + |w|] == w;
    assert s[j] == w[0];
    var r := s[j..d];
    if props != [] {
      assert s[j + 1] == w[1] && s[j + 2] == w[2];
      assert Escape(props) == [ESCAPE_CHAR, props[0]] + Escape(props[1..]);
      if props[0] == ESCAPE_CHAR {
        var w' := [ESCAPE_CHAR] + Escape(props[1..]);
        assert w == [ESCAPE_CHAR, ESCAPE_CHAR] + w';
        AtSplit(s, j, [ESCAPE_CHAR, ESCAPE_CHAR], w');
        BrokenPayload(s, j + 2, props[1..]);
        assert r[2..] == s[j + 2..d];
      } else {
        assert d == j + 2;
        assert Unescape(r) == [ESCAPE_CHAR] + Unescape(r[2..]);
      }
    } else {
      assert |r| >= 2;
      assert Unescape(r) == [r[1]] + Unescape(r[2..]);
    }
  }

  /** A node read back as it was written has a type and properties that survive. */
  lemma NodeSurvived(s: seq<Byte>, i: nat, f: Forest)
    requires f.Cons? && i + 1 < |s| && s[i + 1] == Head(f.typ) == f.typ && At(s, i + 2, Payload(f.typ, f.props))
    requires KidsAt(i, f) < |s| && IsDelimiter(s[KidsAt(i, f)])
    requires Scan(s, i + 2).Some? && Unescape(s[i + 2..Scan(s, i + 2).value]) == f.props
    ensures NodeSurvives(f.typ, f.props)
  {
    hide Write, Escape, Scan, Unescape, At;
    if f.typ >= ESCAPE_CHAR && !HeadSurvives(f.props) {
      assert Payload(f.typ, f.props) == [ESCAPE_CHAR] + Escape(f.props);
      BrokenPayload(s, i + 2, f.props);
    }
  }

  /** What a successful parse of one node says about its parts. */
  lemma ParseParts(s: seq<Byte>, i: nat, f: Forest)
    requires f.Cons? && i < |s| && Parse(s, i).Ok? && Decode(s, Parse(s, i).index) == f
    ensures i + 1 < |s| && s[i + 1] == f.typ && Scan(s, i + 2).Some?
    ensures var d := Scan(s, i + 2).value; var kids := ParseKids(s, d);
      && Unescape(s[i + 2..d]) == f.props
      && kids.Ok? && Decode(s, kids.index) == f.child && kids.pos < |s|
      && var rest := ParseRest(s, kids.pos);
      && rest.Ok? && Decode(s, rest.index) == f.next && Parse(s, i).pos == rest.pos
  {
    var x := Parse(s, i).index;
    assert x.start + 2 + x.size == Scan(s, i + 2).value;
  }

  lemma {:induction false} KidsSurvived(s: seq<Byte>, c: nat, f: Forest)
    requires At(s, c, Write(f)) && c + |Write(f)| < |s| && s[c + |Write(f)|] == NODE_END
    requires c < |s| && IsDelimiter(s[c])
    requires ParseKids(s, c).Ok? && Decode(s, ParseKids(s, c).index) == f
    ensures Survives(f) && ParseKids(s, c).pos == c + |Write(f)|
    decreases f, 1
  {
    hide Write;
    WriteHead(s, c, f);
    if f.Cons? {
      OnlySurvivors(s, c, f);
    }
  }

  lemma {:induction false} RestSurvived(s: seq<Byte>, e: nat, f: Forest)
    requires At(s, e + 1, Write(f)) && EndsAt(s, e + 1 + |Write(f)|) && e < |s|
    requires ParseRest(s, e).Ok? && Decode(s, ParseRest(s, e).index) == f
    ensures Survives(f) && ParseRest(s, e).pos == e + 1 + |Write(f)|
    decreases f, 1
  {
    hide Write;
    WriteHead(s, e + 1, f);
    if f.Cons? {
      OnlySurvivors(s, e + 1, f);
    }
  }

  /** Whatever is read back as it was written is a surviving forest. */
  lemma {:induction false} OnlySurvivors(s: seq<Byte>, i: nat, f: Forest)
    requires f.Cons? && At(s, i, Write(f)) && EndsAt(s, i + |Write(f)|)
    requires i < |s| && Parse(s, i).Ok? && Decode(s, Parse(s, i).index) == f
    ensures Survives(f) && Parse(s, i).pos == i + |Write(f)|
    decreases f, 0
  {
    hide Write, Escape, Payload, Scan, Unescape, Parse;
    WrittenNode(s, i, f);
    WriteHead(s, KidsAt(i, f), f.child);
    ParseParts(s, i, f);
    NodeSurvived(s, i, f);
    PayloadScanned(s, i, f);
    KidsSurvived(s, KidsAt(i, f), f.child);
    RestSurvived(s, EndAt(i, f), f.next);
  }

  /** Header of a written file: a zero version number. */
  const HEADER: seq<Byte> := [0, 0, 0, 0]

  function FileOf(f: Forest): seq<Byte> { HEADER + Write(f) }

  /** Opening a file of nodes: parse from offset 4, then fetch type and properties of every node. */
  function ReadFile(s: seq<Byte>): Option<Forest>
  {
    if |s| <= 4 || s[4] != NODE_START || Parse(s, 4).Fail? then None
    else Some(Decode(s, Parse(s, 4).index))
  }

  /** The exact condition of the round trip, over every forest of nodes. */
  lemma RoundTripExactly(f: Forest)
    requires f.Cons?
    ensures ReadFile(FileOf(f)) == Some(f) <==> Survives(f)
  {
    hide Write, Parse;
    var s := FileOf(f);
    assert At(s, 4, Write(f));
    WriteHead(s, 4, f);
    if Survives(f) {
      ReadsBack(s, 4, f);
    }
    if ReadFile(s) == Some(f) {
      OnlySurvivors(s, 4, f);
    }
  }

  lemma {:induction false} PlainSurvives(f: Forest)
    requires PlainTypes(f)
    ensures Survives(f)
  {
    if f.Cons? {
      PlainSurvives(f.child);
      PlainSurvives(f.next);
    }
  }

  /** Every node tree with types below the escape character is read back as it was written. */
  lemma RoundTrip(f: Forest)
    requires f.Cons? && PlainTypes(f)
    ensures ReadFile(FileOf(f)) == Some(f)
  {
    PlainSurvives(f);
    RoundTripExactly(f);
  }

  /** A type byte is safe whatever the properties are exactly when it is below the escape character. */
  lemma SafeTypes(typ: Byte)
    ensures (forall props, child, next ::
               PlainTypes(child) && PlainTypes(next) ==>
                 ReadFile(FileOf(Cons(typ, props, child, next))) == Some(Cons(typ, props, child, next)))
            <==> typ < ESCAPE_CHAR
  {
    if typ < ESCAPE_CHAR {
      forall props, child, next | PlainTypes(child) && PlainTypes(next)
        ensures ReadFile(FileOf(Cons(typ, props, child, next))) == Some(Cons(typ, props, child, next))
      {
        RoundTrip(Cons(typ, props, child, next));
      }
    } else {
      var f := Cons(typ, [], Nil, Nil);
      RoundTripExactly(f);
      assert !Survives(f);
    }
  }
}
