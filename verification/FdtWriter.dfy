/** The serializer: it computes the sizes of the blocks, slices the output buffer accordingly, and fills the
    slices from the front while it walks over the tree. */
module FdtWriters {
  import opened DeviceTrees
  import opened FdtFormat
  import opened FdtEmit

  const FDT_MAGIC: nat := 0xd00dfeed
  const FDT_VERSION: nat := 17
  const FDT_LAST_COMP_VERSION: nat := 16
  const HEADER_SIZE: nat := 40
  const RESV_MAP_SIZE: nat := 16

  lemma {:induction false} CStringLonger(b: seq<byte>, c: seq<byte>)
    requires CString(b).Some?
    ensures CString(b + c) == CString(b)
  {
    if b[0] != 0 {
      CStringLonger(b[1..], c);
      assert (b + c)[1..] == b[1..] + c;
    }
  }

  lemma MeansLonger(s: seq<byte>, more: seq<byte>, rs: seq<Raw>, ts: seq<Token>)
    requires AllMean(s, rs, ts)
    ensures AllMean(s + more, rs, ts)
  {
    forall i | 0 <= i < |rs| ensures Means(s + more, rs[i], ts[i]) {
      assert Means(s, rs[i], ts[i]);
      if rs[i].RawProp? {
        var off := rs[i].nameOffset;
        assert (s + more)[off..] == s[off..] + more;
        CStringLonger(s[off..], more);
      }
    }
  }

  /** The bytes `b` with `data` put in at `pos`. */
  function Overwrite(b: seq<byte>, pos: nat, data: seq<byte>): (c: seq<byte>)
    requires pos + |data| <= |b|
    ensures |c| == |b|
  {
    b[..pos] + data + b[pos + |data|..]
  }

  /** Copies data into a buffer. */
  method Copy(buf: array<byte>, pos: nat, data: seq<byte>)
    requires pos + |data| <= buf.Length
    modifies buf
    ensures buf[..] == Overwrite(old(buf[..]), pos, data)
  {
    ghost var b := buf[..];
    for i := 0 to |data|
      invariant buf[..] == Overwrite(b, pos, data[..i])
    {
      buf[pos + i] := data[i];
      assert data[..i + 1] == data[..i] + [data[i]];
    }
    assert data[..|data|] == data;
  }

  /** Two pieces of data, one behind the other. */
  lemma OverwriteTwice(b: seq<byte>, pos: nat, x: seq<byte>, y: seq<byte>)
    requires pos + |x| + |y| <= |b|
    ensures Overwrite(Overwrite(b, pos, x), pos + |x|, y) == Overwrite(b, pos, x + y)
  {
  }

  /** What stays and what is new in a stretch of `n` bytes, the first of which were overwritten. */
  lemma OverwriteParts(b: seq<byte>, pos: nat, data: seq<byte>, n: nat)
    requires |data| <= n && pos + n <= |b|
    ensures var c := Overwrite(b, pos, data);
            c[..pos] == b[..pos] && c[pos + n..] == b[pos + n..] && c[pos..pos + n] == data + b[pos + |data|..pos + n]
  {
  }

  lemma BeginStarts(name: seq<byte>, pad: seq<byte>)
    requires NoZero(name) && |pad| == Align(|name| + 1) - |name| - 1
    ensures Starts(Be32(FDT_BEGIN_NODE) + (name + [0]) + pad, RawBegin(name))
  {
    hide NoZero, Be32, Align;
    var c := Be32(FDT_BEGIN_NODE) + (name + [0]) + pad;
    assert c[..4] == Be32(FDT_BEGIN_NODE) && c[4..4 + |name|] == name && c[4 + |name|] == 0;
  }

  lemma EndStarts(pad: seq<byte>)
    ensures Starts(Be32(FDT_END_NODE) + pad, RawEnd)
  {
    hide Be32;
    var c := Be32(FDT_END_NODE) + pad;
    assert c[..4] == Be32(FDT_END_NODE);
  }

  lemma PropStarts(off: nat, value: seq<byte>, pad: seq<byte>)
    requires off < U32_LIMIT && |value| < U32_LIMIT && |pad| == Align(|value|) - |value|
    ensures Starts(Be32(FDT_PROP) + Be32(|value|) + Be32(off) + value + pad, RawProp(off, value))
  {
    hide Be32, Align;
    var c := Be32(FDT_PROP) + Be32(|value|) + Be32(off) + value + pad;
    assert c[..4] == Be32(FDT_PROP) && c[4..8] == Be32(|value|) && c[8..12] == Be32(off)
           && c[12..12 + |value|] == value;
  }

  /** Unless a name contains the byte that ends it, part of the buffer is the tokens `raws`, which stand for
      `tokens`, with their names in the strings block. */
  ghost predicate Written(b: seq<byte>, from: nat, to: nat, stringsFrom: nat, stringsTo: nat, raws: seq<Raw>,
                          tokens: seq<Token>) {
    && from <= to <= stringsFrom <= stringsTo <= |b|
    && (AllClean(tokens) ==> IsBlock(b[from..to], raws) && AllMean(b[stringsFrom..stringsTo], raws, tokens))
  }

  lemma DropThenSlice(b: seq<byte>, n: nat, i: nat, j: nat)
    requires n <= i <= j <= |b|
    ensures b[i..j] == b[n..][i - n..j - n]
  {
  }

  lemma CleanParts(tokens: seq<Token>, t: Token)
    requires AllClean(tokens + [t])
    ensures AllClean(tokens) && Clean(t)
  {
    assert (tokens + [t])[|tokens|] == t;
    forall i | 0 <= i < |tokens| ensures Clean(tokens[i]) {
      assert (tokens + [t])[i] == tokens[i];
    }
  }

  /** One more token behind those written so far. */
  lemma WrittenMore(b: seq<byte>, c: seq<byte>, from: nat, to: nat, stringsFrom: nat, stringsTo: nat, raws: seq<Raw>,
                    tokens: seq<Token>, r: Raw, t: Token)
    requires Written(b, from, to, stringsFrom, stringsTo, raws, tokens) && |c| == |b|
    requires to + RawSize(r) <= stringsFrom
    requires c[..to] == b[..to] && c[to + RawSize(r)..] == b[to + RawSize(r)..]
    requires Clean(t) ==> Starts(c[to..to + RawSize(r)], r) && Means(b[stringsFrom..stringsTo], r, t)
    ensures Written(c, from, to + RawSize(r), stringsFrom, stringsTo, raws + [r], tokens + [t])
  {
    hide Starts, Means, RawSize, AllClean, Clean;
    var n := to + RawSize(r);
    SameSlice(b, c, to, from, to);
    DropThenSlice(b, n, stringsFrom, stringsTo);
    DropThenSlice(c, n, stringsFrom, stringsTo);
    if AllClean(tokens + [t]) {
      CleanParts(tokens, t);
      IsBlockAppend(b[from..to], raws, c[to..n], r);
      assert c[from..n] == c[from..to] + c[to..n];
    }
  }

  lemma SameSlice(b: seq<byte>, c: seq<byte>, n: nat, i: nat, j: nat)
    requires i <= j <= n <= |b| && n <= |c| && c[..n] == b[..n]
    ensures c[i..j] == b[i..j]
  {
    assert c[i..j] == c[..n][i..j] && b[i..j] == b[..n][i..j];
  }

  /** One more name in the strings block. */
  lemma NameMore(b: seq<byte>, c: seq<byte>, from: nat, to: nat, stringsFrom: nat, stringsTo: nat, raws: seq<Raw>,
                 tokens: seq<Token>, name: seq<byte>)
    requires Written(b, from, to, stringsFrom, stringsTo, raws, tokens) && |c| == |b|
    requires stringsTo + |name| + 1 <= |b|
    requires c[..stringsTo] == b[..stringsTo] && c[stringsTo..stringsTo + |name| + 1] == name + [0]
    ensures Written(c, from, to, stringsFrom, stringsTo + |name| + 1, raws, tokens)
    ensures NoZero(name) ==> NameAt(c[stringsFrom..stringsTo + |name| + 1], stringsTo - stringsFrom, name)
  {
    hide AllClean, NoZero, IsBlock, NameAt, AllMean;
    var n := stringsTo + |name| + 1;
    SameSlice(b, c, stringsTo, from, to);
    SameSlice(b, c, stringsTo, stringsFrom, stringsTo);
    var was, now := b[stringsFrom..stringsTo], c[stringsFrom..n];
    assert now == c[stringsFrom..stringsTo] + c[stringsTo..n];
    if AllClean(tokens) { MeansLonger(was, name + [0], raws, tokens); }
    if NoZero(name) { NameReads(was, name); }
  }

  lemma NameReads(was: seq<byte>, name: seq<byte>)
    requires NoZero(name)
    ensures NameAt(was + (name + [0]), |was|, name)
  {
    assert (was + (name + [0]))[|was|..] == name + [0] + [];
    CStringIs(name, []);
  }

  class FdtWriter {
    const buf: array<byte>
    const structFrom: nat
    const stringsFrom: nat
    const stringsEnd: nat
    var structPos: nat
    var stringsPos: nat
    ghost var raws: seq<Raw>
    ghost var tokens: seq<Token>
    /** What is still to be written; the slices are as large as that needs. */
    ghost var todo: seq<Token>

    ghost predicate Valid()
      reads this, buf
    {
      && Written(buf[..], structFrom, structPos, stringsFrom, stringsPos, raws, tokens)
      && structFrom <= stringsFrom <= stringsEnd <= buf.Length && stringsEnd - structFrom < U32_LIMIT
      && structPos + BlockSize(todo) + 4 == stringsFrom
      && stringsPos + NamesSize(todo) == stringsEnd
    }

    constructor (buf: array<byte>, structFrom: nat, structSize: nat, stringsSize: nat, ghost todo: seq<Token>)
      requires structFrom + structSize + stringsSize <= buf.Length && structSize + stringsSize < U32_LIMIT
      requires structSize == BlockSize(todo) + 4 && stringsSize == NamesSize(todo)
      ensures Valid() && this.buf == buf && this.structFrom == structFrom && stringsFrom == structFrom + structSize
      ensures structPos == structFrom && stringsEnd == stringsFrom + stringsSize && this.todo == todo && tokens == []
    {
      this.buf, this.structFrom, this.stringsFrom := buf, structFrom, structFrom + structSize;
      this.stringsEnd, structPos, stringsPos := structFrom + structSize + stringsSize, structFrom,
        structFrom + structSize;
      raws, tokens, this.todo := [], [], todo;
    }

    /** Copies data to the front of the structure slice, which it takes up to the next multiple of four. */
    method PushStructRaw(data: seq<byte>)
      requires structPos + |data| <= buf.Length
      modifies this`structPos, buf
      ensures buf[..] == Overwrite(old(buf[..]), old(structPos), data)
      ensures structPos == old(structPos) + Align(|data|)
    {
      Copy(buf, structPos, data);
      structPos := structPos + Align(|data|);
    }

    method PushStructU32(v: nat)
      requires v < U32_LIMIT && structPos + 4 <= buf.Length
      modifies this`structPos, buf
      ensures buf[..] == Overwrite(old(buf[..]), old(structPos), Be32(v)) && structPos == old(structPos) + 4
    {
      Copy(buf, structPos, Be32(v));
      structPos := structPos + 4;
    }

    method PushBegin(name: seq<byte>)
      requires Valid() && todo != [] && todo[0] == Begin(name)
      modifies this`structPos, this`raws, this`tokens, this`todo, buf
      ensures Valid() && todo == old(todo)[1..] && tokens == old(tokens) + [Begin(name)]
      ensures buf[..structFrom] == old(buf[..structFrom])
    {
      hide Written, NoZero, Overwrite, Starts, Align, Be32;
      ghost var p, b, r := structPos, buf[..], RawBegin(name);
      Room(b, structFrom, structPos, stringsFrom, stringsPos, raws, tokens, todo);
      PushStructU32(FDT_BEGIN_NODE);
      PushStructRaw(name + [0]);
      ghost var data := Be32(FDT_BEGIN_NODE) + (name + [0]);
      OverwriteTwice(b, p, Be32(FDT_BEGIN_NODE), name + [0]);
      OverwriteParts(b, p, data, RawSize(r));
      if NoZero(name) { BeginStarts(name, b[p + |data|..p + RawSize(r)]); }
      WrittenMore(b, buf[..], structFrom, p, stringsFrom, stringsPos, raws, tokens, r, Begin(name));
      Untouched(b, buf[..], structFrom, p);
      raws, tokens, todo := raws + [r], tokens + [Begin(name)], todo[1..];
    }

    method PushEnd()
      requires Valid() && todo != [] && todo[0] == End
      modifies this`structPos, this`raws, this`tokens, this`todo, buf
      ensures Valid() && todo == old(todo)[1..] && tokens == old(tokens) + [End]
      ensures buf[..structFrom] == old(buf[..structFrom])
    {
      hide Written, Overwrite, Starts, Align, Be32;
      ghost var p, b := structPos, buf[..];
      Room(b, structFrom, structPos, stringsFrom, stringsPos, raws, tokens, todo);
      PushStructU32(FDT_END_NODE);
      OverwriteParts(b, p, Be32(FDT_END_NODE), 4);
      EndStarts([]);
      assert Be32(FDT_END_NODE) + b[p + 4..p + 4] == Be32(FDT_END_NODE) + [];
      WrittenMore(b, buf[..], structFrom, p, stringsFrom, stringsPos, raws, tokens, RawEnd, End);
      Untouched(b, buf[..], structFrom, p);
      raws, tokens, todo := raws + [RawEnd], tokens + [End], todo[1..];
    }

    /** Puts a name into the strings slice; its offset there. */
    method PushString(name: seq<byte>) returns (offset: nat)
      requires stringsPos + |name| + 1 <= stringsEnd <= buf.Length
      requires Written(buf[..], structFrom, structPos, stringsFrom, stringsPos, raws, tokens)
      modifies this`stringsPos, buf
      ensures offset == old(stringsPos) - stringsFrom && stringsPos == old(stringsPos) + |name| + 1
      ensures Written(buf[..], structFrom, structPos, stringsFrom, stringsPos, raws, tokens)
      ensures NoZero(name) ==> NameAt(buf[stringsFrom..stringsPos], offset, name)
      ensures buf[..structFrom] == old(buf[..structFrom])
    {
      hide Written, Overwrite, NoZero, NameAt;
      ghost var b, p := buf[..], stringsPos;
      Bounds(b, structFrom, structPos, stringsFrom, stringsPos, raws, tokens);
      Copy(buf, stringsPos, name + [0]);
      OverwriteParts(b, p, name + [0], |name| + 1);
      assert name + [0] + b[p + |name| + 1..p + (|name| + 1)] == name + [0];
      NameMore(b, buf[..], structFrom, structPos, stringsFrom, p, raws, tokens, name);
      Untouched(b, buf[..], structFrom, p);
      offset := stringsPos - stringsFrom;
      stringsPos := stringsPos + |name| + 1;
      assert buf[..][stringsFrom..stringsPos] == buf[stringsFrom..stringsPos];
    }

    /** The token of a property: its code, the length of the value, the offset of the name and the value. */
    method PushPropToken(off: nat, value: seq<byte>)
      requires |value| < U32_LIMIT && off < U32_LIMIT && structPos + 12 + |value| <= buf.Length
      modifies this`structPos, buf
      ensures buf[..] == Overwrite(old(buf[..]), old(structPos), Be32(FDT_PROP) + Be32(|value|) + Be32(off) + value)
      ensures structPos == old(structPos) + 12 + Align(|value|)
    {
      hide Overwrite, Align, Be32;
      ghost var p, b := structPos, buf[..];
      PushStructU32(FDT_PROP);
      PushStructU32(|value|);
      PushStructU32(off);
      PushStructRaw(value);
      OverwriteTwice(b, p, Be32(FDT_PROP), Be32(|value|));
      OverwriteTwice(b, p, Be32(FDT_PROP) + Be32(|value|), Be32(off));
      OverwriteTwice(b, p, Be32(FDT_PROP) + Be32(|value|) + Be32(off), value);
    }

    method PushProp(prop: Prop)
      requires Valid() && todo != [] && todo[0] == Property(prop)
      modifies this`structPos, this`stringsPos, this`raws, this`tokens, this`todo, buf
      ensures Valid() && todo == old(todo)[1..] && tokens == old(tokens) + [Property(prop)]
      ensures buf[..structFrom] == old(buf[..structFrom])
    {
      hide Written, Overwrite, Starts, Align, Be32, NameAt, NoZero, BlockSize, NamesSize;
      Room(buf[..], structFrom, structPos, stringsFrom, stringsPos, raws, tokens, todo);
      RoomForName(todo);
      var off := PushString(prop.name);
      ghost var p, b, r := structPos, buf[..], RawProp(off, prop.value);
      assert b[stringsFrom..stringsPos] == buf[stringsFrom..stringsPos];
      PushPropToken(off, prop.value);
      ghost var data := Be32(FDT_PROP) + Be32(|prop.value|) + Be32(off) + prop.value;
      OverwriteParts(b, p, data, RawSize(r));
      PropStarts(off, prop.value, b[p + |data|..p + RawSize(r)]);
      WrittenMore(b, buf[..], structFrom, p, stringsFrom, stringsPos, raws, tokens, r, Property(prop));
      Untouched(b, buf[..], structFrom, p);
      raws, tokens, todo := raws + [r], tokens + [Property(prop)], todo[1..];
    }
  }

  lemma RoomForName(todo: seq<Token>)
    requires todo != [] && todo[0].Property?
    ensures NamesSize(todo) == |todo[0].prop.name| + 1 + NamesSize(todo[1..])
  {
  }

  /** There is room for the first token that is to be written. */
  lemma Room(b: seq<byte>, from: nat, to: nat, stringsFrom: nat, stringsTo: nat, raws: seq<Raw>, tokens: seq<Token>,
             todo: seq<Token>)
    requires Written(b, from, to, stringsFrom, stringsTo, raws, tokens) && to + BlockSize(todo) + 4 == stringsFrom
             && todo != []
    ensures from <= to <= stringsFrom <= stringsTo <= |b|
    ensures BlockSize(todo) == TokenSize(todo[0]) + BlockSize(todo[1..]) && to + TokenSize(todo[0]) + 4 <= stringsFrom
  {
  }

  lemma Untouched(b: seq<byte>, c: seq<byte>, from: nat, to: nat)
    requires from <= to <= |b| && |c| == |b| && c[..to] == b[..to]
    ensures c[..from] == b[..from]
  {
    assert c[..from] == c[..to][..from];
  }

  lemma Bounds(b: seq<byte>, from: nat, to: nat, stringsFrom: nat, stringsTo: nat, raws: seq<Raw>, tokens: seq<Token>)
    requires Written(b, from, to, stringsFrom, stringsTo, raws, tokens)
    ensures from <= to <= stringsFrom <= stringsTo <= |b|
  {
  }
}
