/**
  The ASID allocator as the object it is in the source, run by one CPU at a time.  Each method is
  proved against the function of the same name that the protocol's steps are made of.
 */
module AsidAllocator {
  import opened AsidSpec
  import opened AsidSafety
  import AsidFlush
  import AsidRoom

  /** An address space's own copy of its tuple. */
  class Space {
    var asid: Asid

    constructor ()
      ensures asid == Invalid
    {
      asid := Invalid;
    }
  }

  ghost function BitSet(bits: seq<bool>): set<nat> {
    set i: nat | i < |bits| && bits[i]
  }

  lemma BitSetUpdate(bits: seq<bool>, n: nat)
    requires n < |bits|
    ensures BitSet(bits[n := true]) == BitSet(bits) + {n}
  {}

  class AsidAllocator {
    const cfg: Config
    const active: array<Asid>
    const reserved: array<Asid>
    const bitmap: array<bool>
    const pending: array<bool>
    var gen: nat
    var currentIdx: nat

    ghost predicate Shape() {
      && active != reserved && bitmap != pending
      && reserved.Length == active.Length && pending.Length == active.Length
      && bitmap.Length == cfg.limit && Roomy(cfg, active.Length)
    }

    ghost predicate Valid()
      reads this, active, reserved, bitmap, pending
    {
      && Shape()
      && cfg.base <= currentIdx
      && (forall k :: 0 <= k < active.Length && active[k].Tuple? ==> active[k].num < cfg.limit)
      && (forall k :: 0 <= k < active.Length && reserved[k].Tuple? ==>
            reserved[k].num < cfg.limit && bitmap[reserved[k].num])
    }

    ghost function View(): (al: Alloc)
      requires Shape()
      reads this, active, reserved, bitmap, pending
      ensures Shaped(al, active.Length)
    {
      Alloc(gen, active[..], reserved[..], BitSet(bitmap[..]), currentIdx, pending[..])
    }

    constructor (cfg: Config, cpus: nat)
      requires Roomy(cfg, cpus)
      ensures Valid() && View() == Fresh(cfg, cpus) && this.cfg == cfg
      ensures gen == 1 && currentIdx == cfg.base && active.Length == cpus
      ensures forall k :: 0 <= k < cpus ==> active[k] == reserved[k] == Invalid && !pending[k]
      ensures forall n :: 0 <= n < bitmap.Length ==> !bitmap[n]
      ensures fresh(active) && fresh(reserved) && fresh(bitmap) && fresh(pending)
    {
      this.cfg := cfg;
      active := new Asid[cpus](_ => Invalid);
      reserved := new Asid[cpus](_ => Invalid);
      bitmap := new bool[cfg.limit](_ => false);
      pending := new bool[cpus](_ => false);
      gen, currentIdx := 1, cfg.base;
      new;
      assert View() == Fresh(cfg, cpus);
    }

    method FindNextFree() returns (n: nat)
      requires Valid()
      modifies this`currentIdx
      ensures Valid()
      ensures (View(), Tuple(gen, n)) == TakeNext(cfg, old(View()))
      ensures n == FindNext(BitSet(bitmap[..]), old(currentIdx), cfg.limit)
      ensures currentIdx == if n == cfg.limit then old(currentIdx) else n + 1
    {
      var i := currentIdx;
      while i < cfg.limit
        invariant currentIdx == old(currentIdx) <= i
        invariant FindNext(BitSet(bitmap[..]), i, cfg.limit) == FindNext(BitSet(bitmap[..]), old(currentIdx), cfg.limit)
      {
        if !bitmap[i] {
          currentIdx := i + 1;
          return i;
        }
        i := i + 1;
      }
      return cfg.limit;
    }

    method CheckAndUpdateReserved(asid: Asid, update: Asid) returns (found: bool)
      requires Valid() && asid.Tuple? && update.Tuple? && update.num == asid.num
      modifies reserved
      ensures Valid()
      ensures found == (asid in old(reserved[..]))
      ensures reserved[..] == Renew(old(reserved[..]), asid, update)
    {
      found := false;
      var cpu := 0;
      while cpu < active.Length
        invariant 0 <= cpu <= active.Length
        invariant Valid()
        invariant found == (asid in old(reserved[..])[..cpu])
        invariant forall k :: 0 <= k < cpu ==> reserved[k] == Renew(old(reserved[..]), asid, update)[k]
        invariant forall k :: cpu <= k < active.Length ==> reserved[k] == old(reserved[k])
      {
        assert old(reserved[..])[..cpu + 1] == old(reserved[..])[..cpu] + [old(reserved[..])[cpu]];
        if reserved[cpu] == asid {
          reserved[cpu] := update;
          found := true;
        }
        cpu := cpu + 1;
      }
      assert old(reserved[..])[..cpu] == old(reserved[..]);
    }

    /** All numbers that CPUs run under or have reserved are in range. */
    ghost predicate InRange()
      reads active, reserved
    {
      && (forall k :: 0 <= k < active.Length && active[k].Tuple? ==> active[k].num < cfg.limit)
      && (forall k :: 0 <= k < reserved.Length && reserved[k].Tuple? ==> reserved[k].num < cfg.limit)
    }

    /** One CPU in the roll-over's loop: its active tuple, or else its reserved one, is kept reserved. */
    method RollCpu(cpu: nat)
      requires Shape() && InRange() && cpu < active.Length
      modifies active, reserved, bitmap
      ensures InRange() && View() == RollOne(old(View()), cpu)
      ensures reserved[cpu].Tuple? ==> bitmap[reserved[cpu].num]
      ensures forall k :: 0 <= k < reserved.Length && k != cpu ==> reserved[k] == old(reserved[k])
      ensures forall n :: 0 <= n < bitmap.Length && old(bitmap[n]) ==> bitmap[n]
    {
      ghost var bits := bitmap[..];
      var asid := active[cpu];
      active[cpu] := Invalid;
      if asid.Tuple? {
        reserved[cpu] := asid;
      } else {
        asid := reserved[cpu];
      }
      if asid.Tuple? {
        bitmap[asid.num] := true;
        BitSetUpdate(bits, asid.num);
      }
      assert View() == RollOne(old(View()), cpu);
    }

    method RollOver()
      requires Valid()
      modifies this`currentIdx, active, reserved, bitmap, pending
      ensures Valid()
      ensures View() == RollEnd(RollFrom(old(View()).(bitmap := {}, idx := cfg.base), 0))
      ensures gen == old(gen) && currentIdx == cfg.base && AsidFlush.MarksExactly(BitSet(bitmap[..]), reserved[..])
      ensures forall k :: 0 <= k < active.Length ==>
                && active[k] == Invalid && pending[k]
                && reserved[k] == if old(active[k]).Tuple? then old(active[k]) else old(reserved[k])
    {
      ghost var start := View().(bitmap := {}, idx := cfg.base);
      forall i | 0 <= i < bitmap.Length { bitmap[i] := false; }
      currentIdx := cfg.base;
      assert BitSet(bitmap[..]) == {};
      assert View() == start;
      var cpu := 0;
      while cpu < active.Length
        invariant 0 <= cpu <= active.Length && InRange()
        invariant gen == start.gen && currentIdx == cfg.base && pending[..] == start.pending
        invariant forall k :: 0 <= k < cpu && reserved[k].Tuple? ==> bitmap[reserved[k].num]
        invariant RollFrom(View(), cpu) == RollFrom(start, 0)
      {
        RollCpu(cpu);
        cpu := cpu + 1;
      }
      forall i | 0 <= i < pending.Length { pending[i] := true; }
      assert View() == RollEnd(RollFrom(start, 0));
      AsidFlush.RollFromIs(start, 0);
    }

    /** Start the next generation and take its first clear number. */
    method NextGeneration() returns (r: Asid)
      requires Valid()
      modifies this, active, reserved, bitmap, pending
      ensures Valid()
      ensures (View(), r) == TakeNext(cfg, RollEnd(RollFrom(RollStart(cfg, old(View())), 0)))
    {
      gen := gen + 1;
      RollOver();
      var n := FindNextFree();
      r := Tuple(gen, n);
    }

    method NewAsidFor(asid: Asid) returns (r: Asid)
      requires Valid() && (asid.Tuple? ==> cfg.base <= asid.num < cfg.limit)
      modifies this, active, reserved, bitmap, pending
      ensures Valid()
      ensures (View(), r) == NewAsid(cfg, old(View()), asid)
    {
      if asid.Tuple? && bitmap[asid.num] {
        var found := CheckAndUpdateReserved(asid, Tuple(gen, asid.num));
        if found {
          return Tuple(gen, asid.num);
        }
        assert View() == old(View());
      }
      var n := FindNextFree();
      if n == cfg.limit {
        assert View() == old(View());
        r := NextGeneration();
      } else {
        r := Tuple(gen, n);
      }
    }

    /** The locked path on CPU `cpu`; true means that the CPU has to flush its TLB. */
    method AllocLocked(space: Space, cpu: nat) returns (flush: bool)
      requires Valid() && cpu < active.Length
      requires space.asid.Tuple? ==> cfg.base <= space.asid.num < cfg.limit
      modifies this, active, reserved, bitmap, pending, space
      ensures Valid()
      ensures (View(), space.asid, flush) == AllocAsid(cfg, old(View()), cpu, old(space.asid))
      ensures space.asid.Tuple? && space.asid.gen == gen && cfg.base <= space.asid.num < cfg.limit
      ensures active[cpu] == space.asid && !pending[cpu]
      ensures flush <==> old(pending[cpu]) || gen != old(gen)
      ensures gen != old(gen) <==>
                !Current(old(View()), old(space.asid)) && AsidFlush.MustRollOver(cfg, old(View()), old(space.asid))
    {
      AsidFlush.AllocMeans(cfg, View(), cpu, space.asid);
      var a := space.asid;
      if !(a.Tuple? && a.gen == gen) {
        AsidRoom.NewAsidSucceeds(cfg, View(), a);
        a := NewAsidFor(a);
        space.asid := a;
      }
      ghost var mid := View();
      active[cpu] := a;
      flush := pending[cpu];
      pending[cpu] := false;
      assert View() == Publish(mid, cpu, a).0;
    }

    /** The fast path if the space's tuple is current and the CPU's active one is valid, else the locked path. */
    method GetOrAlloc(space: Space, cpu: nat) returns (flush: bool)
      requires Valid() && cpu < active.Length
      requires space.asid.Tuple? ==> cfg.base <= space.asid.num < cfg.limit
      modifies this, active, reserved, bitmap, pending, space
      ensures Valid()
      ensures active[cpu] == space.asid && space.asid.Tuple? && space.asid.gen == gen
      ensures var al, a := old(View()), old(space.asid);
              if Current(al, a) && al.active[cpu].Tuple? then
                !flush && space.asid == a && View() == al.(active := al.active[cpu := a])
              else if Current(al, a) then
                (View(), space.asid, flush) == AllocAsid(cfg, al.(active := al.active[cpu := a]), cpu, a)
              else
                (View(), space.asid, flush) == AllocAsid(cfg, al, cpu, a)
      ensures if Current(old(View()), old(space.asid)) && old(active[cpu]).Tuple?
              then !flush && gen == old(gen) && pending[cpu] == old(pending[cpu])
              else !pending[cpu] && (flush <==> old(pending[cpu]) || gen != old(gen))
    {
      var a := space.asid;
      if a.Tuple? && a.gen == gen {
        var old_ := active[cpu];
        active[cpu] := a;
        if old_.Tuple? {
          return false;
        }
      }
      flush := AllocLocked(space, cpu);
    }
  }
}
