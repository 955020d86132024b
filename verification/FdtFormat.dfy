/** The flattened form of a device tree, after sections 5.4 (Structure Block) and 5.5 (Strings Block) of the
    Devicetree Specification, release v0.3: a decoder for it, and what it means for bytes to be a block
    of given tokens. Padding may hold any bytes. */
module FdtFormat {
  import opened Basics
  import opened DeviceTrees

  const FDT_BEGIN_NODE: nat := 1
  const FDT_END_NODE: nat := 2
  const FDT_PROP: nat := 3
  const FDT_NOP: nat := 4
  const FDT_END: nat := 9

  const U32_LIMIT: nat := 0x1_0000_0000

  function Be32(v: nat): (b: seq<byte>)
    requires v < U32_LIMIT
    ensures |b| == 4
  {
    [v / 0x100_0000, v / 0x1_0000 % 256, v / 256 % 256, v % 256]
  }

  function FromBe32(b: seq<byte>): (v: nat)
    requires |b| >= 4
    ensures v < U32_LIMIT
  {
    (((b[0] as int) * 256 + b[1] as int) * 256 + b[2] as int) * 256 + b[3] as int
  }

  lemma Be32RoundTrip(v: nat, rest: seq<byte>)
    requires v < U32_LIMIT
    ensures FromBe32(Be32(v) + rest) == v
  {
    var x := v / 256;
    var y := x / 256;
    assert v / 0x1_0000 == y && v / 0x100_0000 == y / 256;
  }

  /** Sizes are rounded up to a multiple of four. */
  function Align(n: nat): (r: nat)
    ensures n <= r < n + 4 && r % 4 == 0
  {
    (n + 3) / 4 * 4
  }

  /** The string that starts a sequence of bytes, up to the first zero. */
  function CString(b: seq<byte>): (r: Option<seq<byte>>)
    ensures r.Some? ==> |r.value| < |b| && b[|r.value|] == 0 && r.value == b[..|r.value|]
  {
    if b == [] then None
    else if b[0] == 0 then Some([])
    else match CString(b[1..])
      case None => None
      case Some(s) => Some([b[0]] + s)
  }

  predicate NoZero(s: seq<byte>) {
    forall i | 0 <= i < |s| :: s[i] != 0
  }

  lemma {:induction false} CStringIs(s: seq<byte>, rest: seq<byte>)
    requires NoZero(s)
    ensures CString(s + [0] + rest) == Some(s)
  {
    if s == [] {
      assert (s + [0] + rest)[0] == 0;
    } else {
      CStringIs(s[1..], rest);
      assert (s + [0] + rest)[1..] == s[1..] + [0] + rest;
      assert [s[0]] + s[1..] == s;
    }
  }

  /** A stored string reads back as itself exactly if it does not contain the byte that ends it. */
  lemma CStringIff(s: seq<byte>, rest: seq<byte>)
    ensures CString(s + [0] + rest) == Some(s) <==> NoZero(s)
  {
    if NoZero(s) {
      CStringIs(s, rest);
    } else if CString(s + [0] + rest) == Some(s) {
      CStringNoZero(s + [0] + rest);
    }
  }

  lemma {:induction false} CStringNoZero(b: seq<byte>)
    requires CString(b).Some?
    ensures NoZero(CString(b).value)
  {
    if b[0] != 0 { CStringNoZero(b[1..]); }
  }

  /** A token whose name does not contain the byte that ends it. */
  predicate Clean(t: Token) {
    match t
    case Begin(name) => NoZero(name)
    case Property(prop) => NoZero(prop.name)
    case End => true
  }

  predicate AllClean(ts: seq<Token>) {
    forall i | 0 <= i < |ts| :: Clean(ts[i])
  }

  /* ---------------- The structure block ---------------- */

  /** Tokens as they are stored: a property refers to its name by an offset into the strings block. */
  datatype Raw = RawBegin(name: seq<byte>) | RawProp(nameOffset: nat, value: seq<byte>) | RawEnd

  function RawSize(r: Raw): (n: nat)
    ensures n >= 4
  {
    match r
    case RawBegin(name) => 4 + Align(|name| + 1)
    case RawProp(_, value) => 12 + Align(|value|)
    case RawEnd => 4
  }

  /** The bytes start with the token. */
  predicate Starts(b: seq<byte>, r: Raw) {
    && |b| >= RawSize(r)
    && match r
       case RawBegin(name) => b[..4] == Be32(FDT_BEGIN_NODE) && b[4..4 + |name|] == name && b[4 + |name|] == 0
                              && NoZero(name)
       case RawProp(off, value) =>
         && |value| < U32_LIMIT && off < U32_LIMIT
         && b[..4] == Be32(FDT_PROP) && b[4..8] == Be32(|value|) && b[8..12] == Be32(off)
            && b[12..12 + |value|] == value
       case RawEnd => b[..4] == Be32(FDT_END_NODE)
  }

  /** The bytes are the tokens, one after the other. */
  predicate IsBlock(b: seq<byte>, rs: seq<Raw>)
    decreases |rs|
  {
    if rs == [] then b == [] else Starts(b, rs[0]) && IsBlock(b[RawSize(rs[0])..], rs[1..])
  }

  lemma {:induction false} IsBlockAppend(b: seq<byte>, rs: seq<Raw>, c: seq<byte>, r: Raw)
    requires IsBlock(b, rs) && Starts(c, r) && |c| == RawSize(r)
    ensures IsBlock(b + c, rs + [r])
    decreases |rs|
  {
    if rs == [] {
      assert b + c == c && c[RawSize(r)..] == [] && (rs + [r])[1..] == [];
    } else {
      hide Starts;
      var n := RawSize(rs[0]);
      IsBlockAppend(b[n..], rs[1..], c, r);
      assert (b + c)[n..] == b[n..] + c && (rs + [r])[1..] == rs[1..] + [r];
      StartsLonger(b, c, rs[0]);
    }
  }

  lemma StartsLonger(b: seq<byte>, c: seq<byte>, r: Raw)
    requires Starts(b, r)
    ensures RawSize(r) <= |b| && Starts(b + c, r)
  {
    var d := b + c;
    assert d[..4] == b[..4];
    match r
    case RawBegin(name) => assert d[4..4 + |name|] == b[4..4 + |name|];
    case RawProp(_, value) => assert d[4..8] == b[4..8] && d[8..12] == b[8..12]
                              && d[12..12 + |value|] == b[12..12 + |value|];
    case RawEnd =>
  }

  /* ---------------- Decoding ---------------- */

  /** The tokens of a structure block, up to FDT_END. The numbers are those of the specification. */
  function ParseBlock(b: seq<byte>, strings: seq<byte>): (r: Option<seq<Token>>)
    decreases |b|
  {
    if |b| < 4 then None
    else
      var code := FromBe32(b);
      if code == 1 then
        match CString(b[4..])
        case None => None
        case Some(name) =>
          var n := 4 + Align(|name| + 1);
          if n > |b| then None else Then(Begin(name), ParseBlock(b[n..], strings))
      else if code == 2 then Then(End, ParseBlock(b[4..], strings))
      else if code == 3 then
        if |b| < 12 then None
        else
          var len, off := FromBe32(b[4..]), FromBe32(b[8..]);
          var n := 12 + Align(len);
          if n > |b| || off > |strings| then None
          else match CString(strings[off..])
            case None => None
            case Some(name) => Then(Property(Prop(name, b[12..12 + len])), ParseBlock(b[n..], strings))
      else if code == 4 then ParseBlock(b[4..], strings)
      else if code == 9 then Some([])
      else None
  }

  function Then(t: Token, rest: Option<seq<Token>>): (r: Option<seq<Token>>) {
    match rest case None => None case Some(ts) => Some([t] + ts)
  }

  /** The name at an offset of the strings block. */
  predicate NameAt(strings: seq<byte>, off: nat, name: seq<byte>) {
    off <= |strings| && CString(strings[off..]) == Some(name)
  }

  /** The stored token `r` stands for the token `t`. */
  predicate Means(strings: seq<byte>, r: Raw, t: Token) {
    match r
    case RawBegin(name) => t == Begin(name)
    case RawEnd => t == End
    case RawProp(off, value) => t.Property? && t.prop.value == value && NameAt(strings, off, t.prop.name)
  }

  predicate AllMean(strings: seq<byte>, rs: seq<Raw>, ts: seq<Token>) {
    |rs| == |ts| && forall i | 0 <= i < |rs| :: Means(strings, rs[i], ts[i])
  }

  lemma ReadU32(b: seq<byte>, v: nat)
    requires v < U32_LIMIT && |b| >= 4 && b[..4] == Be32(v)
    ensures FromBe32(b) == v
  {
    assert b == Be32(v) + b[4..];
    Be32RoundTrip(v, b[4..]);
  }

  lemma ParseBegin(b: seq<byte>, strings: seq<byte>, name: seq<byte>)
    requires Starts(b, RawBegin(name))
    ensures ParseBlock(b, strings) == Then(Begin(name), ParseBlock(b[RawSize(RawBegin(name))..], strings))
  {
    ReadU32(b, FDT_BEGIN_NODE);
    assert b[4..] == name + [0] + b[5 + |name|..];
    CStringIs(name, b[5 + |name|..]);
    hide CString, FromBe32, Be32, Align, Then;
  }

  lemma ParseEnd(b: seq<byte>, strings: seq<byte>)
    requires Starts(b, RawEnd)
    ensures ParseBlock(b, strings) == Then(End, ParseBlock(b[RawSize(RawEnd)..], strings))
  {
    ReadU32(b, FDT_END_NODE);
    hide CString, FromBe32, Be32, Align, Then;
  }

  lemma ParseProp(b: seq<byte>, strings: seq<byte>, off: nat, prop: Prop)
    requires Starts(b, RawProp(off, prop.value)) && NameAt(strings, off, prop.name)
    ensures ParseBlock(b, strings) == Then(Property(prop), ParseBlock(b[RawSize(RawProp(off, prop.value))..], strings))
  {
    ReadU32(b, FDT_PROP);
    assert b[4..][..4] == b[4..8] && b[8..][..4] == b[8..12];
    ReadU32(b[4..], |prop.value|);
    ReadU32(b[8..], off);
    hide CString, FromBe32, Be32, Align, Then;
  }

  lemma ParseFirst(b: seq<byte>, strings: seq<byte>, r: Raw, t: Token)
    requires Starts(b, r) && Means(strings, r, t)
    ensures ParseBlock(b, strings) == Then(t, ParseBlock(b[RawSize(r)..], strings))
  {
    hide ParseBlock, Starts, RawSize;
    match r
    case RawBegin(name) => ParseBegin(b, strings, name);
    case RawEnd => ParseEnd(b, strings);
    case RawProp(off, value) => ParseProp(b, strings, off, t.prop);
  }

  lemma ParseDone(rest: seq<byte>, strings: seq<byte>)
    ensures ParseBlock(Be32(FDT_END) + rest, strings) == Some([])
  {
    Be32RoundTrip(FDT_END, rest);
  }

  /** The decoder recovers the tokens of a block, whatever the padding, and whatever follows FDT_END. */
  lemma {:induction false} ParseInverts(b: seq<byte>, rs: seq<Raw>, strings: seq<byte>, ts: seq<Token>, rest: seq<byte>)
    requires IsBlock(b, rs) && AllMean(strings, rs, ts)
    ensures ParseBlock(b + Be32(FDT_END) + rest, strings) == Some(ts)
    decreases |rs|
  {
    hide Starts, RawSize, Be32, Means, ParseBlock;
    var tail := Be32(FDT_END) + rest;
    if rs == [] {
      ParseDone(rest, strings);
      assert b + Be32(FDT_END) + rest == tail && ts == [];
    } else {
      var n := RawSize(rs[0]);
      StartsLonger(b, tail, rs[0]);
      assert b + Be32(FDT_END) + rest == b + tail;
      ParseFirst(b + tail, strings, rs[0], ts[0]);
      assert (b + tail)[n..] == b[n..] + Be32(FDT_END) + rest;
      ParseInverts(b[n..], rs[1..], strings, ts[1..], rest);
      assert ts == [ts[0]] + ts[1..];
    }
  }

  lemma CleanThen(t: Token, rest: Option<seq<Token>>)
    requires Clean(t) && (rest.Some? ==> AllClean(rest.value))
    ensures Then(t, rest).Some? ==> AllClean(Then(t, rest).value)
  {
  }

  /** No bytes whatsoever decode to a name that contains the byte that ends it. */
  lemma {:induction false} ParsedClean(b: seq<byte>, strings: seq<byte>)
    requires ParseBlock(b, strings).Some?
    ensures AllClean(ParseBlock(b, strings).value)
    decreases |b|, 0
  {
    hide AllClean, Then, NoZero, CString, FromBe32, Align;
    var code := FromBe32(b);
    if code == FDT_BEGIN_NODE {
      CStringNoZero(b[4..]);
      var name := CString(b[4..]).value;
      ParsedRest(b[4 + Align(|name| + 1)..], strings, Begin(name));
    } else if code == FDT_END_NODE {
      ParsedRest(b[4..], strings, End);
    } else if code == FDT_PROP {
      var len, off := FromBe32(b[4..]), FromBe32(b[8..]);
      CStringNoZero(strings[off..]);
      var name := CString(strings[off..]).value;
      ParsedRest(b[12 + Align(len)..], strings, Property(Prop(name, b[12..12 + len])));
    } else if code == FDT_NOP {
      ParsedClean(b[4..], strings);
    } else {
      NothingClean();
    }
  }

  lemma NothingClean()
    ensures AllClean([])
  {
  }

  lemma {:induction false} ParsedRest(b: seq<byte>, strings: seq<byte>, t: Token)
    requires Clean(t)
    ensures Then(t, ParseBlock(b, strings)).Some? ==> AllClean(Then(t, ParseBlock(b, strings)).value)
    decreases |b|, 1
  {
    hide ParseBlock, AllClean, Clean;
    if ParseBlock(b, strings).Some? { ParsedClean(b, strings); }
    CleanThen(t, ParseBlock(b, strings));
  }
}
