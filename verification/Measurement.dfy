/** Measurement of a guest: registers that are extended by hashing, in a chain, and locked when the guest is
    finalized. The hash is any function with results of a fixed length. */
module Measurements {
  import opened Basics

  type byte = x: int | 0 <= x < 256

  type Hash = seq<byte> -> seq<byte>

  /** All results of the hash have length `n`. */
  ghost predicate HashOk(h: Hash, n: nat) {
    forall x :: |h(x)| == n
  }

  const U64_LIMIT: nat := 0x1_0000_0000_0000_0000

  function Le(v: nat, k: nat): (b: seq<byte>)
    ensures |b| == k
  {
    if k == 0 then [] else [v % 256] + Le(v / 256, k - 1)
  }

  function Pow256(k: nat): (r: nat)
    ensures r > 0
  {
    if k == 0 then 1 else 256 * Pow256(k - 1)
  }

  lemma {:induction false} LeInjective(v: nat, w: nat, k: nat)
    requires v < Pow256(k) && w < Pow256(k) && Le(v, k) == Le(w, k)
    ensures v == w
  {
    if k > 0 {
      assert Le(v, k)[0] == v % 256 && Le(w, k)[0] == w % 256;
      assert Le(v, k)[1..] == Le(v / 256, k - 1) && Le(w, k)[1..] == Le(w / 256, k - 1);
      Quotient(v, Pow256(k - 1));
      Quotient(w, Pow256(k - 1));
      LeInjective(v / 256, w / 256, k - 1);
    }
  }

  lemma Quotient(v: nat, p: nat)
    requires v < 256 * p
    ensures v / 256 < p
  {
  }

  /* ---------------- Registers ---------------- */

  datatype Error = LockedMeasurementRegister | InvalidMeasurementRegisterIndex

  type Result<+T> = Fallible<T, Error>

  datatype Register = Register(pcr: nat, isStatic: bool, extensible: bool, digest: seq<byte>)

  /** What is hashed to extend a register: the old digest, the address if there is one, and the data. */
  function Input(digest: seq<byte>, address: Option<nat>, data: seq<byte>): (x: seq<byte>) {
    digest + (match address case None => [] case Some(a) => Le(a, 8)) + data
  }

  function Extend(h: Hash, r: Register, data: seq<byte>, address: Option<nat>): (q: Result<Register>) {
    if !r.extensible then Err(LockedMeasurementRegister) else Ok(r.(digest := h(Input(r.digest, address, data))))
  }

  function Finalize(r: Register): (q: Register) {
    if r.isStatic then r.(extensible := false) else r
  }

  const TVM_PAGE: nat := 2
  const TVM_CONFIGURATION: nat := 3

  /** The registers of a guest: four static ones, and four that can be extended at run time. */
  function Registers(d: seq<byte>): (rs: seq<Register>) {
    [Register(0, true, true, d), Register(1, true, true, d), Register(TVM_PAGE, true, true, d),
     Register(TVM_CONFIGURATION, true, true, d),
     Register(17, false, true, d), Register(18, false, true, d), Register(19, false, true, d),
       Register(20, false, true, d)]
  }

  function Find(rs: seq<Register>, pcr: nat): (i: Option<nat>)
    ensures i.Some? ==> i.value < |rs| && rs[i.value].pcr == pcr
  {
    if rs == [] then None
    else if rs[0].pcr == pcr then Some(0)
    else match Find(rs[1..], pcr) case None => None case Some(i) => Some(i + 1)
  }

  /** extend_msmt_register. */
  function ExtendAt(h: Hash, rs: seq<Register>, pcr: nat, data: seq<byte>,
                    address: Option<nat>): (r: Result<seq<Register>>) {
    match Find(rs, pcr)
    case None => Err(InvalidMeasurementRegisterIndex)
    case Some(i) => match Extend(h, rs[i], data, address) case Err(e) => Err(e) case Ok(q) => Ok(rs[i := q])
  }

  /* ---------------- The chain of pages ---------------- */

  datatype Page = Page(address: nat, data: seq<byte>)

  /** The digest after pages have been measured one after the other. */
  function Chain(h: Hash, d: seq<byte>, pages: seq<Page>): (r: seq<byte>) {
    if pages == [] then d
    else h(Input(Chain(h, d, pages[..|pages| - 1]), Some(pages[|pages| - 1].address), pages[|pages| - 1].data))
  }

  /** The bytes of a number of 64 bits, lowest first. */
  function Bytes(v: nat): (b: seq<byte>) {
    [v % 0x100, v / 0x100 % 0x100, v / 0x1_0000 % 0x100, v / 0x100_0000 % 0x100, v / 0x1_0000_0000 % 0x100,
     v / 0x100_0000_0000 % 0x100, v / 0x1_0000_0000_0000 % 0x100, v / 0x100_0000_0000_0000 % 0x100]
  }

  lemma LeIs(v: nat)
    ensures Le(v, 8) == Bytes(v)
  {
    var a := v / 256;
    var b := a / 256;
    var c := b / 256;
    var d := c / 256;
    var e := d / 256;
    var f := e / 256;
    var g := f / 256;
    assert Le(g, 1) == [g % 256] by { assert Le(g / 256, 0) == []; }
    assert Le(e, 3) == [e % 256, f % 256, g % 256] by { assert Le(f, 2) == [f % 256] + Le(g, 1); }
    assert Le(c, 5) == [c % 256, d % 256, e % 256, f % 256, g % 256] by { assert Le(d, 4) == [d % 256] + Le(e, 3); }
    assert Le(a, 7) == [a % 256, b % 256, c % 256, d % 256, e % 256, f % 256, g % 256] by {
      assert Le(b, 6) == [b % 256] + Le(c, 5);
    }
    assert b == v / 0x1_0000 && c == v / 0x100_0000 && d == v / 0x1_0000_0000;
    assert e == v / 0x100_0000_0000 && f == v / 0x1_0000_0000_0000 && g == v / 0x100_0000_0000_0000;
  }

  /** What is hashed for a page: the digest so far, the eight bytes of the address, lowest first, and the contents; and
      for the entry point: the digest so far and the eight bytes of each of its numbers. */
  lemma HashedIs(h: Hash, d: seq<byte>, pages: seq<Page>, p: Page, pc: nat, arg: nat)
    ensures Chain(h, d, []) == d
    ensures Chain(h, d, pages + [p]) == h(Chain(h, d, pages) + Bytes(p.address) + p.data)
    ensures Config(h, d, pc, arg) == h(h(d + Bytes(pc)) + Bytes(arg))
  {
    hide Bytes, Le;
    LeIs(p.address);
    LeIs(pc);
    LeIs(arg);
    assert (pages + [p])[..|pages|] == pages;
    var x := d + Bytes(pc);
    assert Input(d, None, Bytes(pc)) == x && Input(h(x), None, Bytes(arg)) == h(x) + Bytes(arg);
  }

  lemma {:induction false} ChainLength(h: Hash, n: nat, d: seq<byte>, pages: seq<Page>)
    requires HashOk(h, n) && |d| == n
    ensures |Chain(h, d, pages)| == n
  {
  }

  /** Evidence against the hash: two inputs with the same result, or an input that gives the initial digest. */
  datatype Weakness = Collision(x: seq<byte>, y: seq<byte>) | Preimage(z: seq<byte>)

  ghost predicate Breaks(h: Hash, d: seq<byte>, w: Weakness) {
    match w
    case Collision(x, y) => x != y && h(x) == h(y)
    case Preimage(z) => h(z) == d
  }

  lemma InputInjective(d: seq<byte>, p: Page, e: seq<byte>, q: Page)
    requires |d| == |e| && p.address < U64_LIMIT && q.address < U64_LIMIT
    requires Input(d, Some(p.address), p.data) == Input(e, Some(q.address), q.data)
    ensures d == e && p == q
  {
    var x, y := Input(d, Some(p.address), p.data), Input(e, Some(q.address), q.data);
    var n := |d|;
    assert x[..n] == d && y[..n] == e;
    assert x[n..n + 8] == Le(p.address, 8) && y[n..n + 8] == Le(q.address, 8);
    assert x[n + 8..] == p.data && y[n + 8..] == q.data;
    Pow8();
    LeInjective(p.address, q.address, 8);
  }

  lemma Pow8()
    ensures Pow256(8) == U64_LIMIT
  {
    assert Pow256(4) == 0x1_0000_0000;
    assert Pow256(6) == 0x1_0000_0000_0000;
  }

  predicate Addressed(pages: seq<Page>) {
    forall i | 0 <= i < |pages| :: pages[i].address < U64_LIMIT
  }

  /** What the last step of a non-empty chain hashes. */
  function LastInput(h: Hash, d: seq<byte>, pages: seq<Page>): (x: seq<byte>)
    requires pages != []
    ensures Chain(h, d, pages) == h(x)
  {
    Input(Chain(h, d, pages[..|pages| - 1]), Some(pages[|pages| - 1].address), pages[|pages| - 1].data)
  }

  lemma LastInputInjective(h: Hash, n: nat, d: seq<byte>, xs: seq<Page>, ys: seq<Page>)
    requires HashOk(h, n) && |d| == n && Addressed(xs) && Addressed(ys) && xs != [] && ys != []
    requires LastInput(h, d, xs) == LastInput(h, d, ys)
    ensures xs[|xs| - 1] == ys[|ys| - 1] && Chain(h, d, xs[..|xs| - 1]) == Chain(h, d, ys[..|ys| - 1])
  {
    hide Chain, Input;
    ChainLength(h, n, d, xs[..|xs| - 1]);
    ChainLength(h, n, d, ys[..|ys| - 1]);
    InputInjective(Chain(h, d, xs[..|xs| - 1]), xs[|xs| - 1], Chain(h, d, ys[..|ys| - 1]), ys[|ys| - 1]);
  }

  lemma SameEnds(xs: seq<Page>, ys: seq<Page>)
    requires xs != [] && ys != [] && xs[|xs| - 1] == ys[|ys| - 1] && xs[..|xs| - 1] == ys[..|ys| - 1]
    ensures xs == ys
  {
    assert xs == xs[..|xs| - 1] + [xs[|xs| - 1]] && ys == ys[..|ys| - 1] + [ys[|ys| - 1]];
  }

  /** Guests with the same page digest have the same pages, at the same addresses, measured in the same order;
      if not, the two sequences exhibit a weakness of the hash. */
  lemma {:induction false} SameDigestSamePages(h: Hash, n: nat, d: seq<byte>, xs: seq<Page>,
                                               ys: seq<Page>) returns (w: Weakness)
    requires HashOk(h, n) && |d| == n && Addressed(xs) && Addressed(ys) && Chain(h, d, xs) == Chain(h, d, ys)
    ensures xs == ys || Breaks(h, d, w)
    decreases |xs|
  {
    w := Preimage([]);
    if xs == [] && ys != [] {
      w := Preimage(LastInput(h, d, ys));
    } else if xs != [] && ys == [] {
      w := Preimage(LastInput(h, d, xs));
    } else if xs != [] {
      if LastInput(h, d, xs) != LastInput(h, d, ys) {
        w := Collision(LastInput(h, d, xs), LastInput(h, d, ys));
      } else {
        hide HashOk, Chain, LastInput, Breaks;
        LastInputInjective(h, n, d, xs, ys);
        w := SameDigestSamePages(h, n, d, xs[..|xs| - 1], ys[..|ys| - 1]);
        if xs[..|xs| - 1] == ys[..|ys| - 1] { SameEnds(xs, ys); }
      }
    }
  }

  /** Two extensions of the configuration register: the entry point, then its argument. */
  function Config(h: Hash, d: seq<byte>, pc: nat, arg: nat): (r: seq<byte>) {
    h(Input(h(Input(d, None, Le(pc, 8))), None, Le(arg, 8)))
  }

  lemma PlainInputInjective(d: seq<byte>, v: nat, e: seq<byte>, w: nat)
    requires |d| == |e| && v < U64_LIMIT && w < U64_LIMIT
    requires Input(d, None, Le(v, 8)) == Input(e, None, Le(w, 8))
    ensures d == e && v == w
  {
    var x, y := Input(d, None, Le(v, 8)), Input(e, None, Le(w, 8));
    var n := |d|;
    assert x[..n] == d && y[..n] == e;
    assert x[n..] == Le(v, 8) && y[n..] == Le(w, 8);
    Pow8();
    LeInjective(v, w, 8);
  }

  /** The configuration digest determines the entry point and its argument, or exhibits a weakness of the hash. */
  lemma SameConfigSameEntry(h: Hash, n: nat, d: seq<byte>, pc: nat, arg: nat, pc': nat, arg': nat) returns (w: Weakness)
    requires HashOk(h, n) && |d| == n
    requires pc < U64_LIMIT && arg < U64_LIMIT && pc' < U64_LIMIT && arg' < U64_LIMIT
    requires Config(h, d, pc, arg) == Config(h, d, pc', arg')
    ensures (pc == pc' && arg == arg') || Breaks(h, d, w)
  {
    var x1, y1 := Input(d, None, Le(pc, 8)), Input(d, None, Le(pc', 8));
    var x2, y2 := Input(h(x1), None, Le(arg, 8)), Input(h(y1), None, Le(arg', 8));
    if x2 != y2 {
      w := Collision(x2, y2);
    } else {
      PlainInputInjective(h(x1), arg, h(y1), arg');
      w := Collision(x1, y1);
      if x1 == y1 { PlainInputInjective(d, pc, d, pc'); }
    }
  }

  /* ---------------- The life of a guest ---------------- */

  datatype Entry = Entry(pc: nat, arg: nat)

  /** `pages` are the pages that have been mapped with contents, in order; `entry` is what finalizing the guest
      measured. `booted`: the boot vCPU has been powered on, which happens once. */
  datatype Guest = Guest(running: bool, booted: bool, regs: seq<Register>, pages: seq<Page>, entry: Option<Entry>)

  /** `copied`: of how many pages the contents can be copied before a copy fails. `cpu`: there is a boot vCPU.
      `imsics`: the addresses of the interrupt files are valid. `read`: the data has the size of a hash and can be
      read. */
  datatype Op =
    | AddMeasured(pages: seq<Page>, copied: nat)
    | AddZero(address: nat)
    | Start(at: Entry, cpu: bool, imsics: bool)
    | ExtendRegister(pcr: nat, data: seq<byte>, read: bool)

  /** A call is carried out or refused, which leaves the guest as `guest`, or the hypervisor panics. */
  datatype Outcome = Left(guest: Guest) | Panicked

  function New(d: seq<byte>): (g: Guest) {
    Guest(false, false, Registers(d), [], None)
  }

  function FinalizeAll(rs: seq<Register>): (r: seq<Register>)
    ensures |r| == |rs| && forall i | 0 <= i < |rs| :: r[i] == Finalize(rs[i])
  {
    seq(|rs|, i requires 0 <= i < |rs| => Finalize(rs[i]))
  }

  /** The static registers are locked before the keys of the next layers are derived, which is taken to succeed. */
  function DoStart(h: Hash, g: Guest, at: Entry, cpu: bool, imsics: bool): (r: Guest) {
    if g.running || g.booted || !cpu then g
    else if !imsics then g.(booted := true)
    else match ExtendAt(h, g.regs, TVM_CONFIGURATION, Le(at.pc, 8), None)
      case Err(_) => g.(booted := true)
      case Ok(r1) =>
        match ExtendAt(h, r1, TVM_CONFIGURATION, Le(at.arg, 8), None)
        case Err(_) => g.(booted := true, regs := r1)
        case Ok(r2) => g.(running := true, booted := true, regs := FinalizeAll(r2), entry := Some(at))
  }

  /** Pages are measured and mapped one after the other. The hypervisor relies on each measurement to succeed. */
  function MeasureAll(h: Hash, g: Guest, pages: seq<Page>): (r: Outcome)
    decreases |pages|
  {
    if pages == [] then Left(g)
    else match ExtendAt(h, g.regs, TVM_PAGE, pages[0].data, Some(pages[0].address))
      case Err(_) => Panicked
      case Ok(regs) => MeasureAll(h, g.(regs := regs, pages := g.pages + [pages[0]]), pages[1..])
  }

  /** Pages with contents can only be added before the guest is started, and zero pages and run-time extensions
      come only after. No page is measured before the contents of all have been copied. */
  function Do(h: Hash, g: Guest, op: Op): (r: Outcome) {
    match op
    case AddMeasured(pages, copied) => if g.running || copied < |pages| then Left(g) else MeasureAll(h, g, pages)
    case AddZero(_) => Left(g)
    case Start(at, cpu, imsics) => Left(DoStart(h, g, at, cpu, imsics))
    case ExtendRegister(pcr, data, read) =>
      if !g.running || !read then Left(g)
      else (match ExtendAt(h, g.regs, pcr, data, None) case Err(_) => Left(g) case Ok(regs) => Left(g.(regs := regs)))
  }

  function Run(h: Hash, g: Guest, ops: seq<Op>): (r: Outcome)
    decreases |ops|
  {
    if ops == [] then Left(g)
    else match Do(h, g, ops[0]) case Panicked => Panicked case Left(g1) => Run(h, g1, ops[1..])
  }

  predicate Locked(g: Guest) {
    g.entry.Some?
  }

  /** The registers are the eight there are; the static ones can be extended until they are locked, and then
      never again; the page register is the chain of the pages mapped with contents; and the configuration
      register is that of the entry point. */
  ghost predicate Inv(h: Hash, d: seq<byte>, g: Guest) {
    && |g.regs| == 8
    && (forall i | 0 <= i < 8 :: g.regs[i].pcr == Registers(d)[i].pcr && g.regs[i].isStatic == (i < 4))
    && (forall i | 0 <= i < 8 :: g.regs[i].extensible == (i >= 4 || !Locked(g)))
    && (g.running <==> Locked(g)) && (Locked(g) ==> g.booted)
    && g.regs[0].digest == d && g.regs[1].digest == d && g.regs[2].digest == Chain(h, d, g.pages)
    && g.regs[3].digest == (if Locked(g) then Config(h, d, g.entry.value.pc, g.entry.value.arg) else d)
  }

  /** What a call keeps of a guest with locked registers. */
  ghost predicate Keeps(g: Guest, r: Guest) {
    Locked(g) ==>
      && r.entry == g.entry && r.pages == g.pages && |r.regs| == 8 && |g.regs| == 8
      && (forall i | 0 <= i < 4 :: r.regs[i] == g.regs[i])
      && r.running == g.running
  }

  lemma {:induction false} FindAt(rs: seq<Register>, k: nat)
    requires k < |rs| && forall i | 0 <= i < k :: rs[i].pcr != rs[k].pcr
    ensures Find(rs, rs[k].pcr) == Some(k)
  {
    if k > 0 {
      assert rs[1..][k - 1] == rs[k];
      FindAt(rs[1..], k - 1);
    }
  }

  lemma FindIs(rs: seq<Register>, d: seq<byte>)
    requires |rs| == 8 && forall i | 0 <= i < 8 :: rs[i].pcr == Registers(d)[i].pcr
    ensures Find(rs, TVM_PAGE) == Some(2) && Find(rs, TVM_CONFIGURATION) == Some(3)
  {
    FindAt(rs, 2);
    FindAt(rs, 3);
  }

  lemma ConfigSteps(h: Hash, d: seq<byte>, rs: seq<Register>, at: Entry)
    requires |rs| == 8 && (forall i | 0 <= i < 8 :: rs[i].pcr == Registers(d)[i].pcr) && rs[3].extensible
    ensures ExtendAt(h, rs, TVM_CONFIGURATION, Le(at.pc, 8), None).Ok?
    ensures var r1 := ExtendAt(h, rs, TVM_CONFIGURATION, Le(at.pc, 8), None).value;
            ExtendAt(h, r1, TVM_CONFIGURATION, Le(at.arg, 8), None)
            == Ok(rs[3 := rs[3].(digest := Config(h, rs[3].digest, at.pc, at.arg))])
  {
    FindIs(rs, d);
    var r1 := ExtendAt(h, rs, TVM_CONFIGURATION, Le(at.pc, 8), None).value;
    FindIs(r1, d);
    var x := rs[3].(digest := h(Input(rs[3].digest, None, Le(at.pc, 8))));
    assert r1 == rs[3 := x];
    var y := rs[3].(digest := Config(h, rs[3].digest, at.pc, at.arg));
    assert r1[3 := y] == rs[3 := y];
  }

  lemma StartKeeps(h: Hash, d: seq<byte>, g: Guest, at: Entry, cpu: bool, imsics: bool)
    requires Inv(h, d, g)
    ensures var r := DoStart(h, g, at, cpu, imsics);
            && Inv(h, d, r) && Keeps(g, r) && r.pages == g.pages && (r.booted <==> g.booted || cpu)
            && SameRuntime(g.regs, r.regs)
            && (!g.booted && cpu && imsics ==> r.entry == Some(at) && r.running)
            && (g.booted || !cpu || !imsics ==> r.entry == g.entry && r.running == g.running)
  {
    hide ExtendAt, Config, Chain;
    if !g.booted && cpu && imsics { ConfigSteps(h, d, g.regs, at); }
  }

  /** The registers that a running guest can extend, by their numbers. */
  predicate AtRunTime(pcr: nat) {
    17 <= pcr <= 20
  }

  lemma FindRuntime(rs: seq<Register>, d: seq<byte>, pcr: nat)
    requires |rs| == 8 && forall i | 0 <= i < 8 :: rs[i].pcr == Registers(d)[i].pcr
    ensures AtRunTime(pcr) ==> Find(rs, pcr) == Some(pcr - 13)
    ensures !AtRunTime(pcr) && pcr > 3 ==> Find(rs, pcr) == None
    ensures pcr <= 3 ==> Find(rs, pcr) == Some(pcr)
  {
    if AtRunTime(pcr) {
      FindAt(rs, pcr - 13);
    } else if pcr <= 3 {
      FindAt(rs, pcr);
    } else {
      FindNone(rs, pcr);
    }
  }

  /** A request of a running guest extends the register it names, if that is one of those for run time, and no other. */
  lemma ExtendDoes(h: Hash, d: seq<byte>, g: Guest, pcr: nat, data: seq<byte>, read: bool)
    requires Inv(h, d, g)
    ensures Do(h, g, ExtendRegister(pcr, data, read)).Left?
    ensures var r := Do(h, g, ExtendRegister(pcr, data, read)).guest;
            && r.(regs := g.regs) == g && |r.regs| == 8
            && (forall i | 0 <= i < 8 :: r.regs[i] ==
                  if g.running && read && AtRunTime(pcr) && i == pcr - 13
                  then g.regs[i].(digest := h(g.regs[i].digest + data)) else g.regs[i])
  {
    hide Chain, Config, Find;
    FindRuntime(g.regs, d, pcr);
    if AtRunTime(pcr) { assert Input(g.regs[pcr - 13].digest, None, data) == g.regs[pcr - 13].digest + data; }
  }

  lemma ExtendKeeps(h: Hash, d: seq<byte>, g: Guest, pcr: nat, data: seq<byte>, read: bool)
    requires Inv(h, d, g)
    ensures Do(h, g, ExtendRegister(pcr, data, read)).Left?
    ensures var r := Do(h, g, ExtendRegister(pcr, data, read)).guest;
            Inv(h, d, r) && Keeps(g, r) && r.pages == g.pages && r.(regs := g.regs) == g
  {
    hide Do, Chain, Config;
    ExtendDoes(h, d, g, pcr, data, read);
  }

  /** The registers for run time are the same in both. */
  predicate SameRuntime(rs: seq<Register>, qs: seq<Register>) {
    |rs| == 8 && |qs| == 8 && forall i | 4 <= i < 8 :: qs[i] == rs[i]
  }

  lemma SameRuntimeSelf(h: Hash, d: seq<byte>, g: Guest)
    requires Inv(h, d, g)
    ensures SameRuntime(g.regs, g.regs)
  {
  }

  lemma MeasureKeeps(h: Hash, d: seq<byte>, g: Guest, page: Page)
    requires Inv(h, d, g) && !g.running
    ensures ExtendAt(h, g.regs, TVM_PAGE, page.data, Some(page.address)).Ok?
    ensures var regs := ExtendAt(h, g.regs, TVM_PAGE, page.data, Some(page.address)).value;
            && Inv(h, d, g.(regs := regs, pages := g.pages + [page]))
            && SameRuntime(g.regs, regs)
  {
    FindIs(g.regs, d);
    assert (g.pages + [page])[..|g.pages|] == g.pages;
  }

  lemma {:induction false} MeasureAllKeeps(h: Hash, d: seq<byte>, g: Guest, pages: seq<Page>)
    requires Inv(h, d, g) && !g.running
    ensures MeasureAll(h, g, pages).Left?
    ensures var r := MeasureAll(h, g, pages).guest;
            && Inv(h, d, r) && r.(regs := g.regs, pages := g.pages) == g && r.pages == g.pages + pages
            && SameRuntime(g.regs, r.regs)
    decreases |pages|
  {
    hide Inv, ExtendAt;
    if pages == [] {
      assert g.pages + [] == g.pages;
      SameRuntimeSelf(h, d, g);
    } else {
      MeasureKeeps(h, d, g, pages[0]);
      var regs := ExtendAt(h, g.regs, TVM_PAGE, pages[0].data, Some(pages[0].address)).value;
      MeasureAllKeeps(h, d, g.(regs := regs, pages := g.pages + [pages[0]]), pages[1..]);
      assert (g.pages + [pages[0]]) + pages[1..] == g.pages + pages;
    }
  }

  /** The pages that a call adds to a guest that has not been started: all or none. */
  function Added(op: Op): (r: seq<Page>) {
    if op.AddMeasured? && op.copied >= |op.pages| then op.pages else []
  }

  /** No page goes unmeasured and none is measured in vain: a call adds all its pages, or it fails and leaves the
      guest and its registers as they were. */
  lemma AddKeeps(h: Hash, d: seq<byte>, g: Guest, pages: seq<Page>, copied: nat)
    requires Inv(h, d, g)
    ensures Do(h, g, AddMeasured(pages, copied)).Left?
    ensures var r := Do(h, g, AddMeasured(pages, copied)).guest;
            && Inv(h, d, r) && Keeps(g, r) && SameRuntime(g.regs, r.regs)
            && (if g.running || copied < |pages| then r == g
                else r.(regs := g.regs, pages := g.pages) == g && r.pages == g.pages + pages)
  {
    hide Inv, MeasureAll;
    KeepsSelf(h, d, g);
    SameRuntimeSelf(h, d, g);
    if !g.running && copied >= |pages| {
      MeasureAllKeeps(h, d, g, pages);
      NotLocked(h, d, g);
    }
  }

  lemma NotLocked(h: Hash, d: seq<byte>, g: Guest)
    requires Inv(h, d, g) && !g.running
    ensures !Locked(g)
  {
  }

  lemma DoKeeps(h: Hash, d: seq<byte>, g: Guest, op: Op)
    requires Inv(h, d, g)
    ensures Do(h, g, op).Left? && Inv(h, d, Do(h, g, op).guest) && Keeps(g, Do(h, g, op).guest)
  {
    hide Inv, Keeps;
    KeepsSelf(h, d, g);
    match op
    case AddMeasured(pages, copied) => AddKeeps(h, d, g, pages, copied);
    case AddZero(_) =>
    case Start(at, cpu, imsics) => StartKeeps(h, d, g, at, cpu, imsics);
    case ExtendRegister(pcr, data, read) => ExtendKeeps(h, d, g, pcr, data, read);
  }

  lemma KeepsSelf(h: Hash, d: seq<byte>, g: Guest)
    requires Inv(h, d, g)
    ensures Keeps(g, g)
  {
  }

  /** In every run, the measurement of a page never fails, the page register is the chain of exactly the pages mapped
      with contents, and nothing a host or the guest does changes a static register once it is locked. */
  lemma {:induction false} RunKeeps(h: Hash, d: seq<byte>, g: Guest, ops: seq<Op>)
    requires Inv(h, d, g)
    ensures Run(h, g, ops).Left? && Inv(h, d, Run(h, g, ops).guest) && Keeps(g, Run(h, g, ops).guest)
    decreases |ops|
  {
    hide Inv, Keeps, Do;
    KeepsSelf(h, d, g);
    if ops != [] {
      DoKeeps(h, d, g, ops[0]);
      var g1 := Do(h, g, ops[0]).guest;
      RunKeeps(h, d, g1, ops[1..]);
      KeepsOn(g, g1, Run(h, g1, ops[1..]).guest);
    }
  }

  lemma KeepsOn(g: Guest, r: Guest, s: Guest)
    requires Keeps(g, r) && Keeps(r, s)
    ensures Keeps(g, s)
  {
  }

  /** The call that finalizes the guest, if any, is the first with a boot vCPU. The pages a run measures are those
      added before it; or all, if it failed early. */
  function Measured(ops: seq<Op>): (r: seq<Page>) {
    if ops == [] then []
    else match ops[0]
      case Start(_, cpu, imsics) => if cpu then (if imsics then [] else AllMeasured(ops[1..])) else Measured(ops[1..])
      case _ => Added(ops[0]) + Measured(ops[1..])
  }

  function AllMeasured(ops: seq<Op>): (r: seq<Page>) {
    if ops == [] then [] else Added(ops[0]) + AllMeasured(ops[1..])
  }

  /** After a failure to start that came before the registers were locked, the guest can never be started. */
  lemma {:induction false} DeadRun(h: Hash, d: seq<byte>, g: Guest, ops: seq<Op>)
    requires Inv(h, d, g) && !Locked(g) && g.booted
    ensures Run(h, g, ops).Left? && !Locked(Run(h, g, ops).guest)
    ensures Run(h, g, ops).guest.pages == g.pages + AllMeasured(ops)
    decreases |ops|
  {
    if ops == [] {
      assert g.pages + [] == g.pages;
    } else {
      hide Inv, Keeps, Chain;
      NotRunning(h, d, g);
      DeadStep(h, d, g, ops[0]);
      DeadRun(h, d, Do(h, g, ops[0]).guest, ops[1..]);
      Assoc(g.pages, Added(ops[0]), AllMeasured(ops[1..]));
    }
  }

  lemma NotRunning(h: Hash, d: seq<byte>, g: Guest)
    requires Inv(h, d, g) && !Locked(g)
    ensures !g.running
  {
  }

  lemma Assoc(a: seq<Page>, b: seq<Page>, c: seq<Page>)
    ensures (a + b) + c == a + (b + c)
  {
  }

  lemma DeadStep(h: Hash, d: seq<byte>, g: Guest, op: Op)
    requires Inv(h, d, g) && !Locked(g) && g.booted
    ensures Do(h, g, op).Left?
    ensures var r := Do(h, g, op).guest;
            Inv(h, d, r) && !Locked(r) && r.booted && r.pages == g.pages + Added(op)
  {
    hide Inv, Chain;
    NotRunning(h, d, g);
    DoKeeps(h, d, g, op);
    assert g.pages + [] == g.pages;
    match op
    case AddMeasured(pages, copied) => AddKeeps(h, d, g, pages, copied);
    case _ =>
  }

  /** The calls start the guest. */
  predicate Starts(h: Hash, g: Guest, ops: seq<Op>) {
    var r := Run(h, g, ops);
    r.Left? && Locked(r.guest)
  }

  /** A guest whose registers are not locked can still be started by some sequence of calls if and only if its boot vCPU
      has not been powered on. */
  lemma CanStartIff(h: Hash, d: seq<byte>, g: Guest)
    requires Inv(h, d, g) && !Locked(g)
    ensures (exists ops :: Starts(h, g, ops)) <==> !g.booted
  {
    hide Inv, DoStart;
    if g.booted {
      forall ops ensures !Starts(h, g, ops) { DeadRun(h, d, g, ops); }
    } else {
      var ops := [Start(Entry(0, 0), true, true)];
      StartKeeps(h, d, g, Entry(0, 0), true, true);
      assert Run(h, DoStart(h, g, Entry(0, 0), true, true), ops[1..]).Left?;
      assert Starts(h, g, ops);
    }
  }

  /** Which pages a run measures. */
  lemma {:induction false} RunPages(h: Hash, d: seq<byte>, g: Guest, ops: seq<Op>)
    requires Inv(h, d, g) && !g.booted
    ensures Run(h, g, ops).Left? && Run(h, g, ops).guest.pages == g.pages + Measured(ops)
    decreases |ops|
  {
    hide Inv, Keeps, Chain, DoStart, ExtendAt;
    assert g.pages + [] == g.pages;
    if ops != [] {
      Unbooted(h, d, g);
      DoKeeps(h, d, g, ops[0]);
      var g1 := Do(h, g, ops[0]).guest;
      match ops[0]
      case Start(at, cpu, imsics) =>
        StartKeeps(h, d, g, at, cpu, imsics);
        if !cpu {
          RunPages(h, d, g1, ops[1..]);
        } else if imsics {
          RunKeepsPages(h, d, g1, ops[1..]);
        } else {
          DeadRun(h, d, g1, ops[1..]);
        }
      case AddMeasured(pages, copied) =>
        AddKeeps(h, d, g, pages, copied);
        RunPages(h, d, g1, ops[1..]);
        Assoc(g.pages, Added(ops[0]), Measured(ops[1..]));
      case _ =>
        RunPages(h, d, g1, ops[1..]);
        Assoc(g.pages, [], Measured(ops[1..]));
    }
  }

  lemma Unbooted(h: Hash, d: seq<byte>, g: Guest)
    requires Inv(h, d, g) && !g.booted
    ensures !g.running && !Locked(g)
  {
  }

  lemma RunKeepsPages(h: Hash, d: seq<byte>, g: Guest, ops: seq<Op>)
    requires Inv(h, d, g) && Locked(g)
    ensures Run(h, g, ops).Left? && Run(h, g, ops).guest.pages == g.pages
  {
    hide Inv, Run;
    RunKeeps(h, d, g, ops);
  }

  /* ---------------- What the running guest measures ---------------- */

  /** The digest after data has been added piece by piece. */
  function DataChain(h: Hash, d: seq<byte>, pieces: seq<seq<byte>>): (r: seq<byte>)
    decreases |pieces|
  {
    if pieces == [] then d else DataChain(h, h(d + pieces[0]), pieces[1..])
  }

  /** The calls that come after the one that starts the guest. */
  function AfterStart(ops: seq<Op>): (r: seq<Op>) {
    if ops == [] then []
    else match ops[0]
      case Start(_, cpu, imsics) => if !cpu then AfterStart(ops[1..]) else if imsics then ops[1..] else []
      case _ => AfterStart(ops[1..])
  }

  /** The data that calls ask to add to a register, in order. */
  function AskedFor(ops: seq<Op>, pcr: nat): (r: seq<seq<byte>>) {
    if ops == [] then [] else Asks(ops[0], pcr) + AskedFor(ops[1..], pcr)
  }

  function Asks(op: Op, pcr: nat): (r: seq<seq<byte>>) {
    if op.ExtendRegister? && op.read && op.pcr == pcr then [op.data] else []
  }

  /** One call changes a register for run time only if the guest runs and asks for it. */
  lemma RuntimeStep(h: Hash, d: seq<byte>, g: Guest, op: Op, pcr: nat)
    requires Inv(h, d, g) && AtRunTime(pcr)
    ensures |g.regs| == 8 && Do(h, g, op).Left? && |Do(h, g, op).guest.regs| == 8
    ensures Do(h, g, op).guest.regs[pcr - 13].digest ==
            DataChain(h, g.regs[pcr - 13].digest, if g.running then Asks(op, pcr) else [])
  {
    hide Inv, Keeps;
    SameRuntimeSelf(h, d, g);
    match op
    case AddMeasured(pages, copied) => AddKeeps(h, d, g, pages, copied);
    case AddZero(_) =>
    case Start(at, cpu, imsics) => StartKeeps(h, d, g, at, cpu, imsics);
    case ExtendRegister(p, data, read) => ExtendDoes(h, d, g, p, data, read);
  }

  lemma {:induction false} DataChainParts(h: Hash, d: seq<byte>, xs: seq<seq<byte>>, ys: seq<seq<byte>>)
    ensures DataChain(h, DataChain(h, d, xs), ys) == DataChain(h, d, xs + ys)
    decreases |xs|
  {
    if xs == [] {
      assert xs + ys == ys;
    } else {
      DataChainParts(h, h(d + xs[0]), xs[1..], ys);
      assert (xs + ys)[0] == xs[0] && (xs + ys)[1..] == xs[1..] + ys;
    }
  }

  lemma {:induction false} RunningRuntime(h: Hash, d: seq<byte>, g: Guest, ops: seq<Op>, pcr: nat)
    requires Inv(h, d, g) && g.running && AtRunTime(pcr)
    ensures |g.regs| == 8 && Run(h, g, ops).Left? && |Run(h, g, ops).guest.regs| == 8
    ensures Run(h, g, ops).guest.regs[pcr - 13].digest == DataChain(h, g.regs[pcr - 13].digest, AskedFor(ops, pcr))
    decreases |ops|
  {
    hide Inv, Do, DataChain;
    InvDigests(h, d, g);
    if ops == [] {
      EmptyChain(h, g.regs[pcr - 13].digest);
    } else {
      DoKeeps(h, d, g, ops[0]);
      RuntimeStep(h, d, g, ops[0], pcr);
      RunningRuntime(h, d, Do(h, g, ops[0]).guest, ops[1..], pcr);
      DataChainParts(h, g.regs[pcr - 13].digest, Asks(ops[0], pcr), AskedFor(ops[1..], pcr));
    }
  }

  lemma EmptyChain(h: Hash, d: seq<byte>)
    ensures DataChain(h, d, []) == d
  {
  }

  lemma {:induction false} DeadRuntime(h: Hash, d: seq<byte>, g: Guest, ops: seq<Op>, pcr: nat)
    requires Inv(h, d, g) && !Locked(g) && g.booted && AtRunTime(pcr)
    ensures |g.regs| == 8 && Run(h, g, ops).Left? && |Run(h, g, ops).guest.regs| == 8
    ensures Run(h, g, ops).guest.regs[pcr - 13].digest == g.regs[pcr - 13].digest
    decreases |ops|
  {
    hide Inv, Do, DataChain;
    InvDigests(h, d, g);
    if ops != [] {
      NotRunning(h, d, g);
      DeadStep(h, d, g, ops[0]);
      RuntimeStep(h, d, g, ops[0], pcr);
      EmptyChain(h, g.regs[pcr - 13].digest);
      DeadRuntime(h, d, Do(h, g, ops[0]).guest, ops[1..], pcr);
    }
  }

  /** In every run, each register for run time is the chain of exactly the data that the guest, once running, has
      asked to add to it, in order. */
  lemma {:induction false} RunRuntime(h: Hash, d: seq<byte>, g: Guest, ops: seq<Op>, pcr: nat)
    requires Inv(h, d, g) && !g.booted && AtRunTime(pcr)
    ensures |g.regs| == 8 && Run(h, g, ops).Left? && |Run(h, g, ops).guest.regs| == 8
    ensures Run(h, g, ops).guest.regs[pcr - 13].digest ==
            DataChain(h, g.regs[pcr - 13].digest, AskedFor(AfterStart(ops), pcr))
    decreases |ops|
  {
    hide Inv, DoStart, MeasureAll, DataChain, ExtendAt, Keeps;
    InvDigests(h, d, g);
    EmptyChain(h, g.regs[pcr - 13].digest);
    if ops != [] {
      Unbooted(h, d, g);
      DoKeeps(h, d, g, ops[0]);
      RuntimeStep(h, d, g, ops[0], pcr);
      var g1 := Do(h, g, ops[0]).guest;
      match ops[0]
      case Start(at, cpu, imsics) =>
        StartKeeps(h, d, g, at, cpu, imsics);
        if !cpu {
          RunRuntime(h, d, g1, ops[1..], pcr);
        } else if imsics {
          RunningRuntime(h, d, g1, ops[1..], pcr);
        } else {
          DeadRuntime(h, d, g1, ops[1..], pcr);
        }
      case AddMeasured(pages, copied) =>
        AddKeeps(h, d, g, pages, copied);
        RunRuntime(h, d, g1, ops[1..], pcr);
      case _ => RunRuntime(h, d, g1, ops[1..], pcr);
    }
  }

  /** What the last step of a chain of data hashes. */
  function LastData(h: Hash, d: seq<byte>, xs: seq<seq<byte>>): (x: seq<byte>)
    requires xs != []
  {
    DataChain(h, d, xs[..|xs| - 1]) + xs[|xs| - 1]
  }

  lemma LastDataIs(h: Hash, d: seq<byte>, xs: seq<seq<byte>>)
    requires xs != []
    ensures DataChain(h, d, xs) == h(LastData(h, d, xs))
  {
    var init, last := xs[..|xs| - 1], xs[|xs| - 1];
    assert xs == init + [last];
    DataChainParts(h, d, init, [last]);
  }

  lemma DataChainLength(h: Hash, n: nat, d: seq<byte>, xs: seq<seq<byte>>)
    requires HashOk(h, n) && |d| == n
    ensures |DataChain(h, d, xs)| == n
  {
    if xs != [] { LastDataIs(h, d, xs); }
  }

  /** Registers for run time with the same digest have been extended with the same data in the same order; if not,
      the two sequences exhibit a weakness of the hash. */
  lemma {:induction false} SameDigestSameData(h: Hash, n: nat, d: seq<byte>, xs: seq<seq<byte>>,
                                              ys: seq<seq<byte>>) returns (w: Weakness)
    requires HashOk(h, n) && |d| == n && DataChain(h, d, xs) == DataChain(h, d, ys)
    ensures xs == ys || Breaks(h, d, w)
    decreases |xs|
  {
    hide HashOk, DataChain;
    w := Preimage([]);
    EmptyChain(h, d);
    if xs != [] { LastDataIs(h, d, xs); }
    if ys != [] { LastDataIs(h, d, ys); }
    if xs == [] && ys != [] {
      w := Preimage(LastData(h, d, ys));
    } else if xs != [] && ys == [] {
      w := Preimage(LastData(h, d, xs));
    } else if xs != [] {
      var a, b := LastData(h, d, xs), LastData(h, d, ys);
      if a != b {
        w := Collision(a, b);
      } else {
        DataChainLength(h, n, d, xs[..|xs| - 1]);
        DataChainLength(h, n, d, ys[..|ys| - 1]);
        assert a[..n] == b[..n] && a[n..] == xs[|xs| - 1] && b[n..] == ys[|ys| - 1];
        w := SameDigestSameData(h, n, d, xs[..|xs| - 1], ys[..|ys| - 1]);
        assert xs == xs[..|xs| - 1] + [xs[|xs| - 1]] && ys == ys[..|ys| - 1] + [ys[|ys| - 1]];
      }
    }
  }

  /** All eight registers after any calls on a new guest. */
  lemma RegistersMean(h: Hash, d: seq<byte>, ops: seq<Op>)
    ensures Run(h, New(d), ops).Left? && |Run(h, New(d), ops).guest.regs| == 8
    ensures var g := Run(h, New(d), ops).guest;
            && g.regs[0].digest == d && g.regs[1].digest == d && g.regs[2].digest == Chain(h, d, Measured(ops))
            && g.regs[3].digest == (if g.entry.Some? then Config(h, d, g.entry.value.pc, g.entry.value.arg) else d)
            && (forall pcr | 17 <= pcr <= 20 ::
                  g.regs[pcr - 13].digest == DataChain(h, d, AskedFor(AfterStart(ops), pcr)))
  {
    hide Inv, Run, DataChain;
    NewInv(h, d);
    RunKeeps(h, d, New(d), ops);
    RunPages(h, d, New(d), ops);
    assert [] + Measured(ops) == Measured(ops);
    InvDigests(h, d, Run(h, New(d), ops).guest);
    forall pcr | 17 <= pcr <= 20
      ensures Run(h, New(d), ops).guest.regs[pcr - 13].digest == DataChain(h, d, AskedFor(AfterStart(ops), pcr))
    {
      RunRuntime(h, d, New(d), ops, pcr);
    }
  }

  lemma NewInv(h: Hash, d: seq<byte>)
    ensures Inv(h, d, New(d))
  {
  }

  lemma InvDigests(h: Hash, d: seq<byte>, g: Guest)
    requires Inv(h, d, g)
    ensures |g.regs| == 8 && g.regs[0].digest == d && g.regs[1].digest == d
    ensures g.regs[2].digest == Chain(h, d, g.pages) && (g.entry.None? ==> g.regs[3].digest == d)
    ensures g.entry.Some? ==> g.regs[3].digest == Config(h, d, g.entry.value.pc, g.entry.value.arg)
    ensures g.running ==> Locked(g) && g.regs[3].digest == Config(h, d, g.entry.value.pc, g.entry.value.arg)
  {
  }

  /** Two running guests, built by any two sequences of calls, whose page and configuration digests agree had the
      same pages added, in the same order and at the same addresses, and start at the same entry point; or the
      hash is broken. */
  lemma DigestsDetermineGuest(h: Hash, n: nat, d: seq<byte>, ops: seq<Op>, others: seq<Op>, g: Guest,
                              q: Guest) returns (w: Weakness)
    requires HashOk(h, n) && |d| == n && Addressed(Measured(ops)) && Addressed(Measured(others))
    requires Run(h, New(d), ops) == Left(g) && Run(h, New(d), others) == Left(q) && g.running && q.running
    requires |g.regs| == 8 && |q.regs| == 8 && g.regs[2].digest == q.regs[2].digest
             && g.regs[3].digest == q.regs[3].digest
    requires g.entry.Some? ==> g.entry.value.pc < U64_LIMIT && g.entry.value.arg < U64_LIMIT
    requires q.entry.Some? ==> q.entry.value.pc < U64_LIMIT && q.entry.value.arg < U64_LIMIT
    ensures (Measured(ops) == Measured(others) && g.entry == q.entry) || Breaks(h, d, w)
  {
    hide Inv, Run, Chain, Config, HashOk, Breaks;
    NewInv(h, d);
    RunKeeps(h, d, New(d), ops);
    RunKeeps(h, d, New(d), others);
    InvDigests(h, d, g);
    InvDigests(h, d, q);
    RunPages(h, d, New(d), ops);
    RunPages(h, d, New(d), others);
    assert [] + Measured(ops) == Measured(ops) && [] + Measured(others) == Measured(others);
    w := SameDigestSamePages(h, n, d, Measured(ops), Measured(others));
    if Measured(ops) == Measured(others) {
      var a, b := g.entry.value, q.entry.value;
      w := SameConfigSameEntry(h, n, d, a.pc, a.arg, b.pc, b.arg);
    }
  }

  /* ---------------- The register as an object ---------------- */

  class MeasurementRegister {
    const pcr: nat
    const isStatic: bool
    var extensible: bool
    var digest: seq<byte>

    ghost function View(): (r: Register)
      reads this
    {
      Register(pcr, isStatic, extensible, digest)
    }

    constructor (pcr: nat, isStatic: bool, digest: seq<byte>)
      ensures View() == Register(pcr, isStatic, true, digest)
    {
      this.pcr, this.isStatic, extensible, this.digest := pcr, isStatic, true, digest;
    }

    method DoExtend(h: Hash, data: seq<byte>, address: Option<nat>) returns (r: Result<()>)
      modifies this`digest
      ensures match Extend(h, old(View()), data, address)
              case Ok(q) => r == Ok(()) && View() == q
              case Err(e) => r == Err(e) && View() == old(View())
    {
      if !extensible { return Err(LockedMeasurementRegister); }
      var x := digest;
      if address.Some? { x := x + Le(address.value, 8); }
      x := x + data;
      assert address.None? ==> digest + [] == digest;
      digest := h(x);
      return Ok(());
    }

    method DoFinalize()
      modifies this`extensible
      ensures View() == Finalize(old(View()))
    {
      if isStatic { extensible := false; }
    }
  }

  class AttestationManager {
    var measurements: seq<Register>

    constructor (d: seq<byte>)
      ensures measurements == Registers(d)
    {
      measurements := Registers(d);
    }

    /** Extends the first register with the index; the others stay as they are. */
    method ExtendMsmtRegister(h: Hash, pcr: nat, data: seq<byte>, address: Option<nat>) returns (r: Result<()>)
      modifies this
      ensures match ExtendAt(h, old(measurements), pcr, data, address)
              case Ok(rs) => r == Ok(()) && measurements == rs
              case Err(e) => r == Err(e) && measurements == old(measurements)
    {
      var i := 0;
      while i < |measurements| && measurements[i].pcr != pcr
        invariant i <= |measurements| && measurements == old(measurements)
        invariant forall j | 0 <= j < i :: measurements[j].pcr != pcr
      {
        i := i + 1;
      }
      if i == |measurements| {
        FindNone(measurements, pcr);
        return Err(InvalidMeasurementRegisterIndex);
      }
      FindAt(measurements, i);
      match Extend(h, measurements[i], data, address) {
        case Err(e) => return Err(e);
        case Ok(q) => measurements := measurements[i := q];
      }
      return Ok(());
    }

    /** Locks the static registers. */
    method LockRegisters()
      modifies this
      ensures measurements == FinalizeAll(old(measurements))
    {
      var i := 0;
      while i < |measurements|
        invariant i <= |measurements| == |old(measurements)|
        invariant forall j | 0 <= j < i :: measurements[j] == Finalize(old(measurements)[j])
        invariant forall j | i <= j < |measurements| :: measurements[j] == old(measurements)[j]
      {
        measurements := measurements[i := Finalize(measurements[i])];
        i := i + 1;
      }
    }

    /** Measures the entry point and locks the static registers. */
    method DoFinalizeAll(h: Hash, at: Entry) returns (ok: bool)
      modifies this
      ensures match ExtendAt(h, old(measurements), TVM_CONFIGURATION, Le(at.pc, 8), None)
              case Err(_) => !ok && measurements == old(measurements)
              case Ok(r1) =>
                match ExtendAt(h, r1, TVM_CONFIGURATION, Le(at.arg, 8), None)
                case Err(_) => !ok && measurements == r1
                case Ok(r2) => ok && measurements == FinalizeAll(r2)
    {
      hide ExtendAt, FinalizeAll;
      var r := ExtendMsmtRegister(h, TVM_CONFIGURATION, Le(at.pc, 8), None);
      if r.Err? { return false; }
      r := ExtendMsmtRegister(h, TVM_CONFIGURATION, Le(at.arg, 8), None);
      if r.Err? { return false; }
      LockRegisters();
      return true;
    }
  }

  lemma {:induction false} FindNone(rs: seq<Register>, pcr: nat)
    requires forall i | 0 <= i < |rs| :: rs[i].pcr != pcr
    ensures Find(rs, pcr) == None
  {
    if rs != [] { FindNone(rs[1..], pcr); }
  }

  /** A guest with its registers. What has been mapped and measured is there for the specification only. */
  class GuestVm {
    var running: bool
    var booted: bool
    const manager: AttestationManager
    ghost var pages: seq<Page>
    ghost var entry: Option<Entry>

    ghost function View(): (g: Guest)
      reads this, manager
    {
      Guest(running, booted, manager.measurements, pages, entry)
    }

    constructor (manager: AttestationManager)
      ensures View() == Guest(false, false, manager.measurements, [], None) && this.manager == manager
    {
      this.manager, running, booted, pages, entry := manager, false, false, [], None;
    }

    /** Maps pages with contents, if all of them could be copied; the measurements do not fail. */
    method DoAddMeasured(h: Hash, add: seq<Page>, copied: nat, ghost d: seq<byte>) returns (ok: bool)
      requires Inv(h, d, View())
      modifies this`pages, manager
      ensures Inv(h, d, View()) && Left(View()) == Do(h, old(View()), AddMeasured(add, copied))
      ensures ok == (!old(running) && copied >= |add|)
    {
      hide ExtendAt, Inv;
      if running || copied < |add| { return false; }
      for i := 0 to |add|
        invariant Inv(h, d, View()) && !running
        invariant MeasureAll(h, View(), add[i..]) == MeasureAll(h, old(View()), add)
      {
        MeasureKeeps(h, d, View(), add[i]);
        assert add[i..][1..] == add[i + 1..];
        var r := manager.ExtendMsmtRegister(h, TVM_PAGE, add[i].data, Some(add[i].address));
        pages := pages + [add[i]];
      }
      return true;
    }

    /** Starts the guest: it is running only if every step succeeded. */
    method DoFinalizeGuest(h: Hash, at: Entry, cpu: bool, imsics: bool) returns (ok: bool)
      modifies this, manager
      ensures View() == DoStart(h, old(View()), at, cpu, imsics)
      ensures ok == (!old(running) && running)
    {
      hide ExtendAt, FinalizeAll;
      if running || booted || !cpu { return false; }
      booted := true;
      if !imsics { return false; }
      ghost var locked := match ExtendAt(h, manager.measurements, TVM_CONFIGURATION, Le(at.pc, 8), None)
        case Err(_) => false
        case Ok(r1) => ExtendAt(h, r1, TVM_CONFIGURATION, Le(at.arg, 8), None).Ok?;
      ok := manager.DoFinalizeAll(h, at);
      if locked { entry := Some(at); }
      running := ok;
    }

    /** A measurement that the running guest asks for: it succeeds exactly for the registers for run time. */
    method DoExtendMeasurement(h: Hash, pcr: nat, data: seq<byte>, read: bool, ghost d: seq<byte>) returns (ok: bool)
      requires Inv(h, d, View())
      modifies manager
      ensures Inv(h, d, View()) && Left(View()) == Do(h, old(View()), ExtendRegister(pcr, data, read))
      ensures ok == (running && read && AtRunTime(pcr))
      ensures ok ==> manager.measurements[pcr - 13].digest == h(old(manager.measurements)[pcr - 13].digest + data)
    {
      hide Inv, ExtendAt;
      ghost var g := View();
      ExtendKeeps(h, d, g, pcr, data, read);
      ExtendDoes(h, d, g, pcr, data, read);
      if !running || !read { return false; }
      ExtendOkIff(h, d, g, pcr, data);
      var r := manager.ExtendMsmtRegister(h, pcr, data, None);
      return r.Ok?;
    }
  }

  lemma ExtendOkIff(h: Hash, d: seq<byte>, g: Guest, pcr: nat, data: seq<byte>)
    requires Inv(h, d, g) && g.running
    ensures ExtendAt(h, g.regs, pcr, data, None).Ok? <==> AtRunTime(pcr)
  {
    hide Chain, Config;
    FindRuntime(g.regs, d, pcr);
  }
}
