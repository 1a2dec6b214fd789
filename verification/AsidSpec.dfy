/**
  The data of the global ASID allocator and the pure functions that describe its locked operations.
  An ASID is a generation count and a number; generations are unbounded here, so they never wrap.
  CPUs are numbered 0 .. n-1 and are exactly the online CPUs; spaces are numbered 0 .. m-1.
 */
module AsidSpec {

  datatype Asid = Invalid | Tuple(gen: nat, num: nat)

  /** First usable number, and one past the last usable number. */
  datatype Config = Config(base: nat, limit: nat)

  /** The allocator's fields.  `bitmap`, `idx`, `reserved` and `pending` are protected by its lock. */
  datatype Alloc = Alloc(
    gen: nat,
    active: seq<Asid>,
    reserved: seq<Asid>,
    bitmap: set<nat>,
    idx: nat,
    pending: seq<bool>)

  predicate Shaped(al: Alloc, cpus: nat) {
    |al.active| == cpus && |al.reserved| == cpus && |al.pending| == cpus
  }

  /** The allocator as constructed: nothing handed out, generation one. */
  function Fresh(cfg: Config, cpus: nat): Alloc {
    Alloc(1, seq(cpus, _ => Invalid), seq(cpus, _ => Invalid), {}, cfg.base, seq(cpus, _ => false))
  }

  /** The least number from `i` on whose bit is clear, or the limit. */
  function FindNext(bitmap: set<nat>, i: nat, limit: nat): (n: nat)
    ensures n <= limit && (i <= limit ==> i <= n)
    ensures n < limit ==> n !in bitmap
    ensures forall k :: i <= k < n ==> k in bitmap
    decreases limit - i
  {
    if i >= limit then limit
    else if i !in bitmap then i
    else FindNext(bitmap, i + 1, limit)
  }

  /** One CPU's part of `roll_over`: take its active tuple away, keep what it was running reserved. */
  function RollOne(al: Alloc, k: nat): (r: Alloc)
    requires Shaped(al, |al.active|) && k < |al.active|
    ensures Shaped(r, |al.active|)
  {
    var kept := if al.active[k].Tuple? then al.active[k] else al.reserved[k];
    al.(active := al.active[k := Invalid],
        reserved := al.reserved[k := kept],
        bitmap := if kept.Tuple? then al.bitmap + {kept.num} else al.bitmap)
  }

  /** The per-CPU loop of `roll_over` for the CPUs from `k` on. */
  function RollFrom(al: Alloc, k: nat): (r: Alloc)
    requires Shaped(al, |al.active|) && k <= |al.active|
    ensures Shaped(r, |al.active|)
    decreases |al.active| - k
  {
    if k == |al.active| then al else RollFrom(RollOne(al, k), k + 1)
  }

  /** What happens before that loop: the next generation starts with an empty bitmap. */
  function RollStart(cfg: Config, al: Alloc): (r: Alloc)
    ensures Shaped(al, |al.active|) ==> Shaped(r, |al.active|)
  {
    al.(gen := al.gen + 1, bitmap := {}, idx := cfg.base)
  }

  /** What happens after it: every CPU has to flush. */
  function RollEnd(al: Alloc): (r: Alloc)
    ensures Shaped(al, |al.active|) ==> Shaped(r, |al.active|)
  {
    al.(pending := seq(|al.active|, _ => true))
  }

  /** `check_and_update_reserved`: every reserved tuple equal to `old` becomes `new`. */
  function Renew(reserved: seq<Asid>, old_: Asid, new_: Asid): (r: seq<Asid>)
    ensures |r| == |reserved|
    ensures forall k :: 0 <= k < |r| ==> r[k] == if reserved[k] == old_ then new_ else reserved[k]
  {
    seq(|reserved|, k requires 0 <= k < |reserved| => if reserved[k] == old_ then new_ else reserved[k])
  }

  /** Take the next clear number, advancing the search index past it. */
  function TakeNext(cfg: Config, al: Alloc): (r: (Alloc, Asid))
    ensures Shaped(al, |al.active|) ==> Shaped(r.0, |al.active|)
    ensures r.1.Tuple? && r.1.gen == al.gen
  {
    var n := FindNext(al.bitmap, al.idx, cfg.limit);
    (if n == cfg.limit then al else al.(idx := n + 1), Tuple(al.gen, n))
  }

  /** Was this tuple running on some CPU at the last roll-over? */
  predicate Reclaimable(al: Alloc, a: Asid) {
    a.Tuple? && a.num in al.bitmap && a in al.reserved
  }

  predicate NeedsRollOver(cfg: Config, al: Alloc, a: Asid) {
    && !Reclaimable(al, a)
    && FindNext(al.bitmap, al.idx, cfg.limit) == cfg.limit
  }

  /** `new_asid` when no roll-over is needed. */
  function Renumber(cfg: Config, al: Alloc, a: Asid): (r: (Alloc, Asid))
    ensures Shaped(al, |al.active|) ==> Shaped(r.0, |al.active|)
    ensures r.1.Tuple? && r.1.gen == al.gen
  {
    if Reclaimable(al, a) then
      (al.(reserved := Renew(al.reserved, a, Tuple(al.gen, a.num))), Tuple(al.gen, a.num))
    else
      TakeNext(cfg, al)
  }

  /** `new_asid`, with the roll-over run to its end. */
  function NewAsid(cfg: Config, al: Alloc, a: Asid): (r: (Alloc, Asid))
    requires Shaped(al, |al.active|)
    ensures Shaped(r.0, |al.active|)
    ensures r.1.Tuple? && r.1.gen == r.0.gen
  {
    if NeedsRollOver(cfg, al, a) then
      TakeNext(cfg, RollEnd(RollFrom(RollStart(cfg, al), 0)))
    else
      Renumber(cfg, al, a)
  }

  predicate Current(al: Alloc, a: Asid) {
    a.Tuple? && a.gen == al.gen
  }

  /** The end of `alloc_asid`: make the tuple active, consume a pending flush. */
  function Publish(al: Alloc, c: nat, a: Asid): (r: (Alloc, bool))
    requires Shaped(al, |al.active|) && c < |al.active|
    ensures Shaped(r.0, |al.active|)
  {
    (al.(active := al.active[c := a], pending := al.pending[c := false]), al.pending[c])
  }

  /** `alloc_asid` on CPU `c` for a space whose stored tuple is `a`: allocator, stored tuple, flush. */
  function AllocAsid(cfg: Config, al: Alloc, c: nat, a: Asid): (r: (Alloc, Asid, bool))
    requires Shaped(al, |al.active|) && c < |al.active|
  {
    var (al1, a1) := if Current(al, a) then (al, a) else NewAsid(cfg, al, a);
    var (al2, flush) := Publish(al1, c, a1);
    (al2, a1, flush)
  }
}
