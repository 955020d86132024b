/** The calls on memory as they are carried out: a loop that checks the range and a loop that works through it,
    page by page, in place. Each does what its function says, so that everything proved of the function
    holds of it. */
module VmMemories {
  import opened PageInfos
  import opened Memory
  import opened MemorySteps
  import opened MemoryRanges
  import opened Hypercalls
  import opened Conversions

  datatype Reply = Served | Refused | Panicked

  /** The reply and the memory are as the call has it. After a panic there is nothing to say. */
  predicate Agrees(c: Call, r: Reply, m: Mem) {
    match c
    case Done(o) => r == Served && m == o
    case Failed(o) => r == Refused && m == o
    case Panic => r == Panicked
  }

  class VmMemory {
    var mem: Mem

    constructor (m: Mem)
      ensures mem == m
    {
      mem := m;
    }

    /** Looks at every page of the range. */
    static method All(vm: OwnerId, g: nat, n: nat, ok: Key -> bool) returns (b: bool)
      ensures b <==> forall i: nat | g <= i < g + n :: ok(Key(vm, i))
    {
      for i := g to g + n
        invariant forall j: nat | g <= j < i :: ok(Key(vm, j))
      {
        if !ok(Key(vm, i)) { return false; }
      }
      return true;
    }

    /** Looks at the table entry of every page of the range. */
    static method AllEntries(vm: OwnerId, g: nat, n: nat, ok: Key -> bool) returns (b: bool)
      ensures b <==> forall i: nat | g <= i < g + n :: ok(At(vm, i))
    {
      hide At;
      for i := g to g + n
        invariant forall j: nat | g <= j < i :: ok(At(vm, j))
      {
        if !ok(At(vm, i)) { return false; }
      }
      return true;
    }

    /** Works through the range; an error on the way is a panic. */
    method Each(w: Work, g: nat, n: nat) returns (r: Reply)
      modifies this
      ensures Agrees(Finish(Range(old(mem), w, g, n)), r, mem)
    {
      hide One;
      for i := 0 to n
        invariant Range(old(mem), w, g, n) == Range(mem, w, g + i, n - i)
      {
        match One(mem, w, g + i) {
          case None => return Panicked;
          case Some(m) => mem := m;
        }
      }
      return Served;
    }

    method DoConvertPages(vm: OwnerId, g: nat, n: nat, cur: nat) returns (r: Reply)
      modifies this
      ensures Agrees(ConvertPages(old(mem), vm, g, n, cur), r, mem)
    {
      hide Range, Convertible, At, Wrapped;
      if vm != HOST || n == 0 || !InSpace(g, n) { return Refused; }
      var m := mem;
      var ok := AllEntries(vm, g, Wrapped(n), k => Convertible(m, k));
      if !ok { return Refused; }
      r := Each(Convert(cur), g, Wrapped(n));
    }

    method DoGetConvertedPages(vm: OwnerId, g: nat, n: nat, min: nat) returns (r: Reply)
      modifies this
      ensures Agrees(GetConvertedPages(old(mem), vm, g, n, min), r, mem)
    {
      hide Range, Lockable, At, Wrapped;
      if n == 0 || !InSpace(g, n) { return Refused; }
      var m := mem;
      var ok := AllEntries(vm, g, Wrapped(n), k => Lockable(m, k, min));
      if !ok { return Refused; }
      r := Each(Lock(vm, min), g, Wrapped(n));
    }

    method DoReclaimPages(vm: OwnerId, g: nat, n: nat, min: nat) returns (r: Reply)
      modifies this
      ensures Agrees(ReclaimPages(old(mem), vm, g, n, min), r, mem)
    {
      hide Range, GetConvertedPages, Mappable, Wrapped;
      r := DoGetConvertedPages(vm, g, n, min);
      if r != Served { return; }
      var m := mem;
      var ok := All(vm, g, n, k => Mappable(m, k, Confidential));
      if !ok { return Panicked; }
      r := Each(Reclaim, g, Wrapped(n));
    }

    /** The pages that a failed call had locked go back to where they were. */
    method DoGiveUp(g: nat, n: nat) returns (r: Reply)
      modifies this
      ensures Agrees(GiveUp(old(mem), g, n), r, mem)
    {
      hide Range;
      r := Each(Unlock, g, n);
      if r == Served { r := Refused; }
    }

    /** `copied` pages can be filled before one cannot. */
    method DoAddPages(guest: OwnerId, from: nat, to: nat, n: nat, tables: bool, copied: nat,
                      min: nat) returns (r: Reply)
      modifies this
      ensures Agrees(AddPages(old(mem), guest, from, to, n, tables, copied, min), r, mem)
    {
      hide Range, GetConvertedPages, Mappable, GiveUp, Wrapped;
      r := DoGetConvertedPages(HOST, from, n, min);
      if r != Served { return; }
      var m := mem;
      var reserved := All(guest, to, n, k => Mappable(m, k, Confidential));
      if guest == HOST || !tables || !reserved || copied < Wrapped(n) {
        r := DoGiveUp(from, Wrapped(n));
        return;
      }
      r := Each(AssignTo(guest, from, to), from, Wrapped(n));
    }

    method DoAddSharedPages(guest: OwnerId, from: nat, to: nat, n: nat, tables: bool) returns (r: Reply)
      modifies this
      ensures Agrees(AddSharedPages(old(mem), guest, from, to, n, tables), r, mem)
    {
      hide Range, Mappable, Shareable, At, Wrapped;
      if n == 0 || !InSpace(from, n) { return Refused; }
      var m := mem;
      var ok := AllEntries(HOST, from, Wrapped(n), k => Shareable(m, k));
      if !ok { return Refused; }
      var reserved := All(guest, to, n, k => Mappable(m, k, SharedRegion));
      if guest == HOST || !tables || !reserved { return Refused; }
      r := Each(ShareTo(guest, from, to), from, Wrapped(n));
    }

    /** Counts the pages that are there. */
    static method Count(m: Mem, vm: OwnerId, g: nat, n: nat) returns (num: nat)
      ensures num != 0 <==> Populated(m, vm, g, n)
    {
      num := 0;
      for i := g to g + n
        invariant num != 0 <==> exists j | g <= j < i :: Key(vm, j) in m.ptes
      {
        if Key(vm, i) in m.ptes { num := num + 1; }
      }
    }

    method DoShareBegin(vm: OwnerId, g: nat, n: nat, cur: nat, room: bool) returns (r: Reply)
      modifies this
      ensures Agrees(ShareBegin(old(mem), vm, g, n, cur, room), r, mem)
    {
      hide Range, Withdrawable, Populated;
      if vm == HOST || !room { return Refused; }
      var m := mem;
      var ok := All(vm, g, n, k => Withdrawable(m, k));
      if !ok { return Refused; }
      var num := Count(mem, vm, g, n);
      r := Each(Withdraw(vm, cur, if num != 0 then Sharing(cur) else SharedRegion), g, n);
    }

    method DoUnshareBegin(vm: OwnerId, g: nat, n: nat, cur: nat, room: bool) returns (r: Reply)
      modifies this
      ensures Agrees(UnshareBegin(old(mem), vm, g, n, cur, room), r, mem)
    {
      hide Range, Returnable, Populated;
      if vm == HOST || !room { return Refused; }
      var m := mem;
      var ok := All(vm, g, n, k => Returnable(m, k));
      if !ok { return Refused; }
      var num := Count(mem, vm, g, n);
      r := Each(Return(vm, if num != 0 then Unsharing(cur) else Confidential), g, n);
    }
  }
}
