/** `L4_cpu_set`: a map of CPU granules behind an offset, and the scan for its first CPU. */
module CpuSet {
  import opened Dyadic
  import opened Multiples

  /** The descriptor word and the map, one bit for each granule. */
  datatype CpuSet = CpuSet(word: nat, bits: seq<bool>) {

    /** Log2 of the number of CPUs in a granule, at most 24. */
    function Granularity(): (g: nat)
      ensures g <= 24
    {
      var g := word / 0x100_0000 % 0x100;
      if g > 24 then 24 else g
    }

    /** CPUs in a granule. */
    function Granule(): nat {
      Pow2(Granularity())
    }

    /** The low 24 bits with the bits below the granularity cleared. */
    function Offset(): nat {
      AlignDown(word % 0x100_0000, Granule())
    }

    /** The offset is the start of the granule that the low 24 bits point into. */
    lemma OffsetRounds()
      ensures Offset() <= word % 0x100_0000 < Offset() + Granule() && Multiple(Offset(), Granule())
    {
      AlignDownIsMultiple(word % 0x100_0000, Granule());
    }

    /** A word with `log` in bits 24 to 31 and `offset` in the bits below: what the fields say. */
    static lemma FieldsOf(high: nat, log: nat, offset: nat, bits: seq<bool>)
      requires log < 0x100 && offset < 0x100_0000
      ensures var s := CpuSet((high * 0x100 + log) * 0x100_0000 + offset, bits);
              var g := Pow2(if log <= 24 then log else 24);
              && s.Granule() == g && Multiple(s.Offset(), g) && s.Offset() <= offset < s.Offset() + g
    {
      var word := (high * 0x100 + log) * 0x100_0000 + offset;
      WordFields(word, high, log, offset);
      CpuSet(word, bits).OffsetRounds();
    }

    /** A CPU is in the set exactly if it lies in a granule whose bit is set, counted from the offset. */
    lemma ContainsExactly(cpu: nat)
      ensures Contains(cpu) <==> exists j: nat :: j < |bits| && bits[j] && InGranule(Offset(), Granule(), j, cpu)
    {
      if Contains(cpu) {
        var j := Index(Offset(), Granule(), cpu);
        GranuleOf(Offset(), Granule(), j, cpu);
      }
      if j: nat :| j < |bits| && bits[j] && InGranule(Offset(), Granule(), j, cpu) {
        GranuleOf(Offset(), Granule(), j, cpu);
      }
    }

    predicate Contains(cpu: nat) {
      In(Offset(), Granule(), bits, cpu)
    }

    /** The least CPU below `max` that is in the set and in `bm`, or `max`. */
    method First(bm: seq<bool>, max: nat) returns (cpu: nat)
      requires max <= |bm|
      ensures cpu <= max
      ensures cpu < max ==> Contains(cpu) && bm[cpu]
      ensures forall c :: 0 <= c < cpu ==> !(Contains(c) && bm[c])
    {
      cpu := Scan(Offset(), Granule(), bits, bm, max);
    }
  }

  /** The granule of a CPU at or above the offset. */
  function Index(off: nat, g: nat, cpu: nat): nat
    requires g >= 1 && cpu >= off
  {
    Quotient(cpu - off, g)
  }

  lemma WordFields(word: nat, high: nat, log: nat, offset: nat)
    requires log < 0x100 && offset < 0x100_0000 && word == (high * 0x100 + log) * 0x100_0000 + offset
    ensures word / 0x100_0000 % 0x100 == log && word % 0x100_0000 == offset
  {
    RemainderOfMultiple(high * 0x100 + log, 0x100_0000, offset);
    RemainderOfMultiple(high, 0x100, log);
  }

  predicate InGranule(off: nat, g: nat, j: nat, cpu: nat) {
    off + j * g <= cpu < off + (j + 1) * g
  }

  lemma GranuleOf(off: nat, g: nat, j: nat, cpu: nat)
    requires g >= 1
    ensures InGranule(off, g, j, cpu) <==> cpu >= off && Index(off, g, cpu) == j
  {
    OneLess(j + 1, g);
    if cpu >= off {
      QuotientIs(g, cpu - off, j);
      QuotientIs(g, cpu - off, j + 1);
    }
  }

  /** The CPU is in one of the marked granules. */
  predicate In(off: nat, g: nat, bits: seq<bool>, cpu: nat)
    requires g >= 1
  {
    cpu >= off && Index(off, g, cpu) < |bits| && bits[Index(off, g, cpu)]
  }

  predicate AtStart(off: nat, g: nat, cpu: nat)
    requires g >= 1
  {
    cpu >= off && Multiple(cpu - off, g)
  }

  /** The loop of `first`. */
  method Scan(off: nat, g: nat, bits: seq<bool>, bm: seq<bool>, max: nat) returns (cpu: nat)
    requires g >= 1 && max <= |bm|
    ensures cpu <= max
    ensures cpu < max ==> In(off, g, bits, cpu) && bm[cpu]
    ensures forall c :: 0 <= c < cpu ==> !(In(off, g, bits, c) && bm[c])
  {
    cpu := off;
    while true
      invariant off <= cpu
      invariant forall c :: 0 <= c < cpu && c < max ==> !(In(off, g, bits, c) && bm[c])
      // a granule that is not in the map is entered at its first CPU
      invariant In(off, g, bits, cpu) || Index(off, g, cpu) >= |bits| || AtStart(off, g, cpu)
      decreases max - cpu
    {
      var b := Index(off, g, cpu);
      if cpu >= max || b >= |bits| {
        if b >= |bits| { NothingBeyond(off, g, bits, cpu); }
        return max;
      }
      if !bits[b] {
        SkipGranule(off, g, bits, cpu);
        cpu := cpu + g;
      } else {
        if bm[cpu] {
          return cpu;
        }
        NextCpu(off, g, bits, cpu);
        cpu := cpu + 1;
      }
    }
  }

  /** Skipping a granule that is not in the map loses no candidate. */
  lemma {:induction false} SkipGranule(off: nat, g: nat, bits: seq<bool>, cpu: nat)
    requires g >= 1 && AtStart(off, g, cpu) && Index(off, g, cpu) < |bits| && !bits[Index(off, g, cpu)]
    ensures forall c :: cpu <= c < cpu + g ==> !In(off, g, bits, c)
    ensures AtStart(off, g, cpu + g)
  {
    forall c | cpu <= c < cpu + g ensures !In(off, g, bits, c) {
      SameGranule(cpu - off, c - cpu, g);
    }
  }

  /** The CPU after one in the set is in the same granule or starts another. */
  lemma {:induction false} NextCpu(off: nat, g: nat, bits: seq<bool>, cpu: nat)
    requires g >= 1 && In(off, g, bits, cpu)
    ensures In(off, g, bits, cpu + 1) || AtStart(off, g, cpu + 1)
  {
    Successor(cpu - off, g);
  }

  lemma {:induction false} NothingBeyond(off: nat, g: nat, bits: seq<bool>, cpu: nat)
    requires g >= 1 && cpu >= off && Index(off, g, cpu) >= |bits|
    ensures forall c :: c >= cpu ==> !In(off, g, bits, c)
  {
    forall c | c >= cpu ensures !In(off, g, bits, c) {
      QuotientMonotone(cpu - off, c - off, g);
    }
  }

  // ----- shifting right by the granularity

  lemma {:induction false} SameGranule(x: nat, d: nat, k: nat)
    requires d < k && Multiple(x, k)
    ensures Quotient(x + d, k) == Quotient(x, k)
  {
    if x != 0 { SameGranule(x - k, d, k); }
  }

  lemma {:induction false} Successor(x: nat, k: nat)
    requires k >= 1
    ensures Quotient(x + 1, k) == Quotient(x, k) || Multiple(x + 1, k)
  {
    if x >= k { Successor(x - k, k); }
  }
}
