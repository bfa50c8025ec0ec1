/**
  Memory regions for large messages (libopen-mx/omx_large.c): a map of slots, and a
  cache that keeps contiguous regions registered after use.
*/
module Regions {
  import opened Options
  import opened Queues

  /** struct omx__large_region; a vectorial region has several segments, and its address is not used. */
  datatype Region = Region(vaddr: nat, len: nat, vect: bool, useCount: int, reserver: Option<nat>)

  /** The free chain, reg_list, reg_unused_list, reg_vect_list and the array of regions. */
  datatype Cache = Cache(free: seq<nat>, regs: seq<nat>, unused: seq<nat>, vects: seq<nat>, region: seq<Region>)

  /** Every slot but those held is in exactly one of the free chain, reg_list and reg_vect_list. */
  ghost predicate Partition(c: Cache, held: set<nat>) {
    && Distinct(c.free) && Distinct(c.regs) && Distinct(c.vects)
    && (forall s :: s in c.free ==> s !in c.regs && s !in c.vects)
    && (forall s :: s in c.regs ==> s !in c.vects)
    && (forall s: nat :: s < |c.region| && s !in held <==> s in c.free || s in c.regs || s in c.vects)
  }

  ghost predicate Kinds(c: Cache) {
    && (forall s :: s in c.regs && s < |c.region| ==>
          !c.region[s].vect && 0 <= c.region[s].useCount && (c.region[s].reserver != None ==> 0 < c.region[s].useCount))
    && (forall s :: s in c.vects && s < |c.region| ==> c.region[s].vect && c.region[s].useCount == 1)
  }

  /** reg_unused_list holds exactly the regions of reg_list that nobody uses, those in `gone` excepted. */
  ghost predicate Unused(c: Cache, gone: set<nat>) {
    && Distinct(c.unused)
    && forall s: nat :: s in c.unused <==> s in c.regs && s !in gone && s < |c.region| && c.region[s].useCount == 0
  }

  ghost predicate CacheOk(c: Cache, held: set<nat>, gone: set<nat>) {
    Partition(c, held) && Kinds(c) && Unused(c, gone)
  }

  /** Without a cache no region is shared or kept unused. */
  ghost predicate Sole(c: Cache, regcache: bool) {
    !regcache ==> forall s :: s in c.regs && s < |c.region| ==> c.region[s].useCount == 1
  }

  // ---- the elementary changes ----

  /** omx__endpoint_large_region_try_alloc of the first free slot. */
  lemma AllocKeeps(c: Cache, gone: set<nat>)
    requires CacheOk(c, {}, gone) && c.free != []
    ensures c.free[0] < |c.region|
    ensures CacheOk(c.(free := c.free[1..], region := c.region[c.free[0] := c.region[c.free[0]].(useCount := 0)]),
            {c.free[0]}, gone)
  {
    var s := c.free[0];
    TailOf(c.free);
    var c' := c.(free := c.free[1..], region := c.region[s := c.region[s].(useCount := 0)]);
    assert s !in c.regs && s !in c.vects;
    assert Partition(c', {s});
    assert Kinds(c') && Unused(c', gone);
  }

  lemma TailOf(list: seq<nat>)
    requires list != [] && Distinct(list)
    ensures list[0] in list && Distinct(list[1..]) && forall x :: x in list[1..] <==> x in list && x != list[0]
  {
    assert list == [list[0]] + list[1..];
  }

  /** A held slot may change as it likes. */
  lemma HeldChanges(c: Cache, s: nat, r: Region)
    requires CacheOk(c, {s}, {}) && s < |c.region|
    ensures CacheOk(c.(region := c.region[s := r]), {s}, {})
  {
  }

  /** omx__endpoint_large_region_free */
  lemma FreeKeeps(c: Cache, s: nat)
    requires CacheOk(c, {s}, {}) && s < |c.region|
    ensures CacheOk(c.(free := [s] + c.free), {}, {})
  {
  }

  lemma EnlistKeeps(c: Cache, s: nat)
    requires CacheOk(c, {s}, {}) && s < |c.region| && 0 < c.region[s].useCount
    ensures !c.region[s].vect ==> CacheOk(c.(regs := c.regs + [s]), {}, {})
    ensures c.region[s].vect && c.region[s].useCount == 1 ==> CacheOk(c.(vects := c.vects + [s]), {}, {})
  {
  }

  /** omx__destroy_region */
  function Destroyed(c: Cache, s: nat): Cache {
    c.(free := [s] + c.free, regs := Remove(c.regs, s), vects := Remove(c.vects, s))
  }

  lemma DestroyKeeps(c: Cache, s: nat)
    requires CacheOk(c, {}, {s}) && (s in c.regs || s in c.vects)
    ensures CacheOk(Destroyed(c, s), {}, {})
  {
    RemoveIs(c.regs, s);
    RemoveIs(c.vects, s);
  }

  /** An unused region leaves reg_unused_list before it is destroyed or used again. */
  lemma LeaveUnused(c: Cache, s: nat)
    requires CacheOk(c, {}, {})
    ensures CacheOk(c.(unused := Remove(c.unused, s)), {}, {s})
  {
    RemoveIs(c.unused, s);
  }

  /** A region of reg_list gets one more user. */
  lemma UseKeeps(c: Cache, s: nat, r: Region)
    requires CacheOk(c, {}, if s in c.regs && s < |c.region| && c.region[s].useCount == 0 then {s} else {})
    requires s in c.regs && s < |c.region| && r == c.region[s].(useCount := c.region[s].useCount + 1,
             reserver := r.reserver)
    ensures CacheOk(c.(region := c.region[s := r]), {}, {})
  {
  }

  /** A region of reg_list loses a user; it is on its way to reg_unused_list if that was the last. */
  lemma UnuseKeeps(c: Cache, s: nat, r: Region)
    requires CacheOk(c, {}, {}) && s in c.regs && s < |c.region| && 0 < c.region[s].useCount
    requires r == c.region[s].(useCount := c.region[s].useCount - 1, reserver := r.reserver)
    requires r.useCount == 0 ==> r.reserver == None
    requires r.reserver != None ==> r.reserver == c.region[s].reserver
    ensures var c' := c.(region := c.region[s := r]);
            if r.useCount == 0 then CacheOk(c', {}, {s}) && CacheOk(c'.(unused := c.unused + [s]), {}, {})
                else CacheOk(c', {}, {})
  {
  }

  function PutRegion(c: Cache, s: nat, reserver: Option<nat>, regcache: bool): Cache
    requires s < |c.region|
  {
    var r := c.region[s];
    var r' := r.(useCount := r.useCount - 1, reserver := if reserver != None then None else r.reserver);
    var c' := c.(region := c.region[s := r']);
    if regcache && !r.vect then if r'.useCount == 0 then c'.(unused := c.unused + [s]) else c'
    else Destroyed(c', s)
  }

  /**
    A region of the cache has a user, and another one if it stays reserved.  Putting one that has left the cache
    does no harm but when its count was left at 1.  Any other region has not been destroyed yet.
  */
  predicate PutOk(c: Cache, s: nat, reserver: Option<nat>, regcache: bool)
    requires s < |c.region|
  {
    var r := c.region[s];
    if !regcache || r.vect then s in c.regs || s in c.vects
    else if s !in c.regs then r.useCount != 1
    else 0 < r.useCount && (reserver == None && r.reserver != None ==> 1 < r.useCount)
  }

  lemma PutExactly(c: Cache, s: nat, reserver: Option<nat>, regcache: bool)
    requires CacheOk(c, {}, {}) && Sole(c, regcache) && s < |c.region|
    ensures var c' := PutRegion(c, s, reserver, regcache);
            CacheOk(c', {}, {}) && Sole(c', regcache) <==> PutOk(c, s, reserver, regcache)
  {
    hide Partition, Kinds, Unused;
    var r := c.region[s];
    var r' := r.(useCount := r.useCount - 1, reserver := if reserver != None then None else r.reserver);
    if !regcache || r.vect {
      DestroyExactly(c, s, r', regcache);
    } else if s in c.regs {
      UncacheExactly(c, s, r');
    } else {
      StrayExactly(c, s, r');
    }
  }

  lemma DestroyExactly(c: Cache, s: nat, r: Region, regcache: bool)
    requires CacheOk(c, {}, {}) && Sole(c, regcache) && s < |c.region| && (!regcache || c.region[s].vect)
    ensures var c' := Destroyed(c.(region := c.region[s := r]), s);
            CacheOk(c', {}, {}) && Sole(c', regcache) <==> s in c.regs || s in c.vects
  {
    RemoveIs(c.regs, s);
    RemoveIs(c.vects, s);
    if s !in c.regs && s !in c.vects { assert !Distinct([s] + c.free) by { Twice(s, c.free); } }
  }

  lemma Twice(s: nat, list: seq<nat>)
    requires s in list
    ensures !Distinct([s] + list)
  {
    var i :| 0 <= i < |list| && list[i] == s;
    assert ([s] + list)[0] == s && ([s] + list)[i + 1] == s;
  }

  lemma UncacheExactly(c: Cache, s: nat, r: Region)
    requires CacheOk(c, {}, {}) && s in c.regs && s < |c.region|
    requires r == c.region[s].(useCount := c.region[s].useCount - 1, reserver := r.reserver)
    requires r.reserver == None || r.reserver == c.region[s].reserver
    ensures var c' := c.(region := c.region[s := r], unused := if r.useCount == 0 then c.unused + [s] else c.unused);
            CacheOk(c', {}, {}) <==> 0 < c.region[s].useCount && (r.reserver != None ==> 1 < c.region[s].useCount)
  {
    hide Partition;
    if 0 < c.region[s].useCount && (r.reserver != None ==> 1 < c.region[s].useCount) { UnuseKeeps(c, s, r); }
  }

  lemma StrayExactly(c: Cache, s: nat, r: Region)
    requires CacheOk(c, {}, {}) && s !in c.regs && s < |c.region| && !c.region[s].vect && !r.vect
    ensures var c' := c.(region := c.region[s := r], unused := if r.useCount == 0 then c.unused + [s] else c.unused);
            CacheOk(c', {}, {}) <==> r.useCount != 0
  {
    assert r.useCount == 0 ==> s in c.unused + [s];
  }

  lemma PutOthers(c: Cache, s: nat, reserver: Option<nat>, regcache: bool)
    requires CacheOk(c, {}, {}) && s < |c.region|
    ensures KeepsOthers(c, PutRegion(c, s, reserver, regcache), s)
  {
    RemoveIs(c.regs, s);
    RemoveIs(c.vects, s);
  }

  /**
    A large send whose reply has come puts its region, and puts it again if a nack comes after.  Then the region is
    cached with a count of -1, and its next user gets it with a count of 0, while it is on the list of the unused.
  */
  lemma NackAfterReply(c: Cache, s: nat, q: nat)
    requires CacheOk(c, {}, {}) && s in c.regs && s < |c.region| && c.region[s].useCount == 1
    requires c.region[s].reserver == Some(q)
    ensures var replied := PutRegion(c, s, Some(q), true);
            var nacked := PutRegion(replied, s, Some(q), true);
            && CacheOk(replied, {}, {}) && !PutOk(replied, s, Some(q), true) && !CacheOk(nacked, {}, {})
            && nacked.region[s].useCount == -1 && s in nacked.unused
            && Fits(nacked.region[s], c.region[s].vaddr, c.region[s].len, Some(q), true)
            && var again := Reused(nacked, s, Some(q)); again.region[s].useCount == 0 && s in again.unused
  {
    hide Partition, Kinds, Unused, Sole;
    assert !c.region[s].vect by { CachedKind(c, s); }
    var r := c.region[s].(useCount := 0, reserver := None);
    UncacheExactly(c, s, r);
    var replied := PutRegion(c, s, Some(q), true);
    UncacheExactly(replied, s, r.(useCount := -1));
  }

  lemma CachedKind(c: Cache, s: nat)
    requires CacheOk(c, {}, {}) && s in c.regs && s < |c.region|
    ensures !c.region[s].vect
  {
  }

  /** The cache hit of omx__get_contigous_region. */
  function Reused(c: Cache, s: nat, reserver: Option<nat>): Cache
    requires s < |c.region|
  {
    var r := c.region[s];
    var taken := if reserver != None then reserver else r.reserver;
    c.(region := c.region[s := r.(useCount := r.useCount + 1, reserver := taken)],
       unused := if r.useCount == 0 then Remove(c.unused, s) else c.unused)
  }

  /** omx__segments_intersect */
  predicate Intersect(begin1: nat, end1: nat, begin2: nat, end2: nat) {
    var minEnd := if end1 > end2 then end2 else end1;
    var maxBegin := if begin1 > begin2 then begin1 else begin2;
    minEnd > maxBegin
  }

  /** Two segments intersect exactly if they have an address in common. */
  lemma IntersectMeans(begin1: nat, end1: nat, begin2: nat, end2: nat)
    ensures Intersect(begin1, end1, begin2, end2) <==> exists x :: Inside(x, begin1, end1) && Inside(x, begin2, end2)
  {
    if Intersect(begin1, end1, begin2, end2) {
      var x := if begin1 > begin2 then begin1 else begin2;
      assert Inside(x, begin1, end1) && Inside(x, begin2, end2);
    }
  }

  predicate Inside(x: nat, begin: nat, end: nat) {
    begin <= x < end
  }

  /** The cache may hand out this region for a request. */
  predicate Fits(r: Region, vaddr: nat, len: nat, reserver: Option<nat>, parallel: bool) {
    (reserver == None || r.reserver == None) && (parallel || r.useCount == 0) && r.vaddr == vaddr && len <= r.len
  }

  class RegionMap {
    const regcache: bool
    const parallel: bool
    var free: seq<nat>
    var regs: seq<nat>
    var unused: seq<nat>
    var vects: seq<nat>
    var region: seq<Region>

    function C(): Cache
      reads this
    {
      Cache(free, regs, unused, vects, region)
    }

    ghost predicate Valid()
      reads this
    {
      CacheOk(C(), {}, {}) && Sole(C(), regcache)
    }

    /** omx__endpoint_large_region_map_init */
    constructor (n: nat, regcache: bool, parallel: bool)
      ensures Valid() && |region| == n && |free| == n && this.regcache == regcache && this.parallel == parallel
    {
      this.regcache, this.parallel := regcache, parallel;
      free, regs, unused, vects := Upto(0, n), [], [], [];
      region := seq(n, _ => Region(0, 0, false, 0, None));
      new;
      UptoIs(0, n);
    }

    /** omx__endpoint_large_region_alloc: a free slot, or that of the region unused for longest. */
    method Alloc() returns (r: Option<nat>)
      requires Valid()
      modifies this
      ensures r == None <==> old(free) == [] && (!regcache || old(unused) == [])
      ensures r == None ==> C() == old(C())
      ensures r != None ==> r.value == if old(free) != [] then old(free)[0] else old(unused)[0]
      ensures r != None ==>
                && CacheOk(C(), {r.value}, {}) && Sole(C(), regcache) && r.value < |region|
                && !InUse(old(C()), r.value) && KeepsUsed(old(C()), C())
                && vects == old(vects) && region[r.value].useCount == 0
    {
      hide Partition, Kinds, Unused, KeepsUsed, InUse;
      KeepsSelf(C());
      if free == [] {
        if !regcache || unused == [] {
          return None;
        }
        var s := unused[0];
        UnusedFacts(C(), s);
        EvictKeeps(C(), s);
        LeaveUnused(C(), s);
        RemoveHead(unused);
        unused := unused[1..];
        DestroyKeeps(C(), s);
        RemoveAbsent(vects, s);
        free, regs := [s] + free, Remove(regs, s);
      }
      AllocKeeps(C(), {});
      AllocUnused(C());
      KeepsBoth(old(C()), C(), C().(free := free[1..], region := region[free[0] := region[free[0]].(useCount := 0)]));
      r := Some(free[0]);
      region := region[free[0] := region[free[0]].(useCount := 0)];
      free := free[1..];
      HeldElsewhere(C(), r.value);
    }

    /** omx__create_region: `registers` says whether the driver accepts the region. */
    method Create(vaddr: nat, len: nat, vect: bool, registers: bool) returns (r: Option<nat>)
      requires Valid()
      modifies this
      ensures r == None <==> !registers || (old(free) == [] && (!regcache || old(unused) == []))
      ensures r == None ==> Valid()
      ensures r != None ==>
                && CacheOk(C(), {r.value}, {}) && Sole(C(), regcache) && r.value < |region|
                && region[r.value] == Region(vaddr, len, vect, 0, None)
      ensures vects == old(vects) && KeepsUsed(old(C()), C()) && (r != None ==> !InUse(old(C()), r.value))
    {
      hide Partition, Kinds, Unused, InUse, KeepsUsed;
      KeepsSelf(C());
      r := Alloc();
      if r == None {
        return;
      }
      var s := r.value;
      ghost var c := C();
      HeldChanges(C(), s, region[s].(vaddr := vaddr, len := len, vect := vect));
      SoleElsewhere(C(), s, region[s].(vaddr := vaddr, len := len, vect := vect), regcache);
      region := region[s := region[s].(vaddr := vaddr, len := len, vect := vect)];
      if !registers {
        FreeKeeps(C(), s);
        free := [s] + free;
        UsedElsewhere(old(C()), c, C(), s);
        return None;
      }
      HeldChanges(C(), s, region[s].(reserver := None));
      SoleElsewhere(C(), s, region[s].(reserver := None), regcache);
      region := region[s := region[s].(reserver := None)];
      UsedElsewhere(old(C()), c, C(), s);
    }

    /**
      omx__get_contigous_region: a cached region that fits, or a new one.  It fails
      only if nothing cached fits and the driver refuses or all slots are in use.
    */
    method GetContiguous(vaddr: nat, len: nat, reserver: Option<nat>, registers: bool) returns (r: Option<nat>)
      requires Valid()
      modifies this
      ensures Valid()
      ensures r != None ==> Granted(old(C()), C(), r.value, vaddr, len, reserver)
      ensures r == None ==> KeepsUsed(old(C()), C()) && vects == old(vects)
      ensures r == None <==>
                && (regcache ==> forall s :: s in old(regs) && s < |old(region)| ==>
                                               !Fits(old(region)[s], vaddr, len, reserver, parallel))
                && (!registers || (old(free) == [] && (!regcache || old(unused) == [])))
    {
      hide Partition, Kinds, Unused, KeepsUsed, InUse, Fits, Sole;
      if regcache {
        RegsInRange(C());
        var i := 0;
        while i < |regs|
          invariant i <= |regs| && C() == old(C())
          invariant forall j :: 0 <= j < i ==> !Fits(region[regs[j]], vaddr, len, reserver, parallel)
        {
          var s := regs[i];
          if Fits(region[s], vaddr, len, reserver, parallel) {
            Reuse(s, vaddr, len, reserver);
            return Some(s);
          }
          i := i + 1;
        }
      }
      r := Create(vaddr, len, false, registers);
      if r != None {
        ghost var c := C();
        Added(old(C()), c, r.value, Region(vaddr, len, false, 1, reserver), regcache);
        regs := regs + [r.value];
        region := region[r.value := region[r.value].(useCount := 1)];
        if reserver != None {
          region := region[r.value := region[r.value].(reserver := reserver)];
        }
        assert region == c.region[r.value := Region(vaddr, len, false, 1, reserver)];
      }
    }

    /** The cache hit: one more user, and off reg_unused_list if it was the first. */
    method Reuse(s: nat, vaddr: nat, len: nat, reserver: Option<nat>)
      requires Valid() && regcache && s in regs && s < |region| && Fits(region[s], vaddr, len, reserver, parallel)
      modifies this
      ensures Valid() && Granted(old(C()), C(), s, vaddr, len, reserver)
    {
      hide Partition, Kinds, Unused;
      CachedFacts(C(), s);
      var taken := if reserver != None then reserver else region[s].reserver;
      if region[s].useCount == 0 {
        LeaveUnused(C(), s);
        unused := Remove(unused, s);
      }
      UseKeeps(C(), s, region[s].(useCount := region[s].useCount + 1, reserver := taken));
      region := region[s := region[s].(useCount := region[s].useCount + 1, reserver := taken)];
    }

    /** omx__get_vect_region: always a new region. */
    method GetVect(reserver: Option<nat>, registers: bool) returns (r: Option<nat>)
      requires Valid()
      modifies this
      ensures Valid()
      ensures r == None <==> !registers || (old(free) == [] && (!regcache || old(unused) == []))
      ensures r == None ==> KeepsUsed(old(C()), C()) && vects == old(vects)
      ensures r != None ==>
                && r.value < |region| && r.value !in old(vects) && vects == old(vects) + [r.value]
                && region[r.value].useCount == 1 && region[r.value].reserver == reserver
                && !InUse(old(C()), r.value) && KeepsUsed(old(C()), C())
    {
      hide Partition, Kinds, Unused, KeepsUsed, InUse, Sole;
      r := Create(0, 0, true, registers);
      if r != None {
        ghost var c := C();
        AddedVect(old(C()), c, r.value, Region(0, 0, true, 1, reserver), regcache);
        vects := vects + [r.value];
        region := region[r.value := region[r.value].(useCount := 1)];
        if reserver != None {
          region := region[r.value := region[r.value].(reserver := reserver)];
        }
        assert region == c.region[r.value := Region(0, 0, true, 1, reserver)];
      }
    }

    /**
      omx__put_region: the user who reserved the region, or another one, gives it up.
      The lists stay in order exactly if there was a user to give it up.
    */
    method Put(s: nat, reserver: Option<nat>)
      requires Valid() && s < |region|
      modifies this
      ensures C() == PutRegion(old(C()), s, reserver, regcache)
      ensures region[s].useCount == old(region)[s].useCount - 1
      ensures region[s].reserver == if reserver != None then None else old(region)[s].reserver
      ensures if regcache && !old(region)[s].vect then
                && free == old(free) && regs == old(regs) && vects == old(vects)
                && unused == if region[s].useCount == 0 then old(unused) + [s] else old(unused)
              else
                unused == old(unused) && free == [s] + old(free)
      ensures Valid() <==> PutOk(old(C()), s, reserver, regcache)
      ensures KeepsOthers(old(C()), C(), s)
    {
      hide CacheOk, Sole, PutOk;
      PutExactly(C(), s, reserver, regcache);
      PutOthers(C(), s, reserver, regcache);
      region := region[s := region[s].(useCount := region[s].useCount - 1)];
      if reserver != None {
        region := region[s := region[s].(reserver := None)];
      }
      if regcache && !region[s].vect {
        if region[s].useCount == 0 {
          unused := unused + [s];
        }
      } else {
        free, regs, vects := [s] + free, Remove(regs, s), Remove(vects, s);
      }
      assert C() == PutRegion(old(C()), s, reserver, regcache);
    }

    /**
      omx__regcache_clean on one endpoint: the address range goes away.  The
      library aborts exactly if a region in use intersects it; otherwise the
      cached regions that do are gone, and only those.
    */
    method Clean(begin: nat, end: nat) returns (aborted: bool)
      requires Valid()
      modifies this
      ensures !aborted ==> Valid()
      ensures aborted <==>
                && regcache
                && exists s :: s in old(regs) && s < |old(region)| && Hit(old(region)[s], begin, end)
                               && 0 < old(region)[s].useCount
      ensures region == old(region) && vects == old(vects)
      ensures !aborted && regcache ==>
                forall s :: s in regs <==> s in old(regs) && s < |old(region)| && !Hit(old(region)[s], begin, end)
    {
      hide Partition, Kinds, Unused, Hit;
      aborted := false;
      if !regcache {
        return;
      }
      var list := regs;
      RegsInRange(C());
      for i := 0 to |list|
        invariant Valid() && region == old(region) && vects == old(vects)
        invariant forall s :: s in regs <==> s in list && !(s in list[..i] && Hit(region[s], begin, end))
        invariant forall j :: 0 <= j < i && Hit(region[list[j]], begin, end) ==> region[list[j]].useCount == 0
      {
        var s := list[i];
        assert list[..i + 1] == list[..i] + [s];
        NotYet(old(C()), i);
        if Hit(region[s], begin, end) {
          CachedFacts(C(), s);
          if region[s].useCount != 0 {
            return true;
          }
          LeaveUnused(C(), s);
          DestroyKeeps(C().(unused := Remove(unused, s)), s);
          unused := Remove(unused, s);
          RemoveAbsent(vects, s);
          free, regs := [s] + free, Remove(regs, s);
        }
      }
      assert list[..|list|] == list;
    }
  }

  /** The address range intersects the region. */
  predicate Hit(r: Region, begin: nat, end: nat) {
    Intersect(begin, end, r.vaddr, r.vaddr + r.len)
  }

  lemma NotYet(c: Cache, i: nat)
    requires CacheOk(c, {}, {}) && i < |c.regs|
    ensures c.regs[i] in c.regs && c.regs[i] !in c.regs[..i]
  {
  }

  lemma CachedFacts(c: Cache, s: nat)
    requires CacheOk(c, {}, {}) && s in c.regs
    ensures s !in c.vects && (forall x :: x in Remove(c.regs, s) <==> x in c.regs && x != s)
    ensures s < |c.region| && 0 <= c.region[s].useCount
  {
    RemoveIs(c.regs, s);
  }

  /** The request got region s: same start, long enough, reserved if asked, and nobody else's region changed. */
  ghost predicate Granted(c: Cache, c': Cache, s: nat, vaddr: nat, len: nat, reserver: Option<nat>) {
    && s in c'.regs && s < |c'.region| == |c.region| && c'.vects == c.vects
    && c'.region[s].vaddr == vaddr && len <= c'.region[s].len && 0 < c'.region[s].useCount
    && (reserver != None ==> c'.region[s].reserver == reserver)
    && (InUse(c, s) ==>
          && c'.region[s] == c.region[s].(useCount := c.region[s].useCount + 1, reserver := c'.region[s].reserver)
          && (reserver != None ==> c.region[s].reserver == None)
          && (reserver == None ==> c'.region[s].reserver == c.region[s].reserver))
    && (!InUse(c, s) ==> c'.region[s].useCount == 1)
    && KeepsOthers(c, c', s)
  }

  ghost predicate KeepsOthers(c: Cache, c': Cache, s: nat) {
    |c'.region| == |c.region| && forall x: nat :: InUse(c, x) && x != s ==> InUse(c', x) && c'.region[x] == c.region[x]
  }

  ghost predicate InUse(c: Cache, s: nat) {
    s < |c.region| && (s in c.vects || (s in c.regs && 0 < c.region[s].useCount))
  }

  /** Regions in use stay as they are. */
  ghost predicate KeepsUsed(c: Cache, c': Cache) {
    |c'.region| == |c.region| && forall s: nat :: InUse(c, s) ==> InUse(c', s) && c'.region[s] == c.region[s]
  }

  lemma UnusedFacts(c: Cache, s: nat)
    requires CacheOk(c, {}, {}) && s in c.unused
    ensures s in c.regs && s !in c.vects && s < |c.region| && c.region[s].useCount == 0
  {
  }

  lemma HeldElsewhere(c: Cache, s: nat)
    requires CacheOk(c, {s}, {})
    ensures s !in c.free && s !in c.regs && s !in c.vects
  {
  }

  /** What happens to a slot that was not in use concerns no region in use. */
  lemma UsedElsewhere(a: Cache, c: Cache, c': Cache, s: nat)
    requires KeepsUsed(a, c) && !InUse(a, s)
    requires (forall x :: x in c.regs ==> x in c'.regs) && (forall x :: x in c.vects ==> x in c'.vects)
             && |c'.region| == |c.region|
    requires forall x: nat :: x < |c.region| && x != s ==> c'.region[x] == c.region[x]
    ensures KeepsUsed(a, c')
  {
  }

  /** With no free slot and none unused, every slot is in use. */
  lemma AllInUse(c: Cache, s: nat)
    requires CacheOk(c, {}, {}) && c.free == [] && c.unused == [] && s < |c.region|
    ensures InUse(c, s)
  {
  }

  lemma KeepsSelf(c: Cache)
    ensures KeepsUsed(c, c)
  {
  }

  lemma KeepsBoth(a: Cache, b: Cache, c: Cache)
    requires KeepsUsed(a, b) && KeepsUsed(b, c)
    ensures KeepsUsed(a, c)
    ensures forall s: nat :: !InUse(b, s) ==> !InUse(a, s)
  {
  }

  lemma EvictKeeps(c: Cache, s: nat)
    requires CacheOk(c, {}, {}) && s in c.unused
    ensures KeepsUsed(c, Destroyed(c.(unused := c.unused[1..]), s))
  {
    RemoveIs(c.regs, s);
    RemoveIs(c.vects, s);
  }

  lemma AllocUnused(c: Cache)
    requires CacheOk(c, {}, {}) && c.free != [] && c.free[0] < |c.region|
    ensures !InUse(c, c.free[0])
    ensures KeepsUsed(c, c.(free := c.free[1..], region := c.region[c.free[0] := c.region[c.free[0]].(useCount := 0)]))
  {
    assert c.free[0] in c.free;
  }

  lemma SoleElsewhere(c: Cache, s: nat, r: Region, regcache: bool)
    requires Sole(c, regcache) && CacheOk(c, {s}, {}) && s < |c.region|
    ensures Sole(c.(region := c.region[s := r]), regcache)
  {
  }

  lemma RegsInRange(c: Cache)
    requires CacheOk(c, {}, {})
    ensures forall i :: 0 <= i < |c.regs| ==> c.regs[i] < |c.region|
  {
    forall i | 0 <= i < |c.regs|
      ensures c.regs[i] < |c.region|
    {
      assert c.regs[i] in c.regs;
    }
  }

  /** A new contiguous region joins reg_list. */
  lemma Added(a: Cache, c: Cache, s: nat, r: Region, regcache: bool)
    requires CacheOk(c, {s}, {}) && Sole(c, regcache) && s < |c.region| && KeepsUsed(a, c) && !InUse(a, s)
             && c.vects == a.vects
    requires !r.vect && r.useCount == 1
    ensures var c' := c.(regs := c.regs + [s], region := c.region[s := r]);
            CacheOk(c', {}, {}) && Sole(c', regcache) && Granted(a, c', s, r.vaddr, r.len, r.reserver)
  {
    HeldChanges(c, s, r);
    HeldElsewhere(c, s);
    EnlistKeeps(c.(region := c.region[s := r]), s);
    var c' := c.(regs := c.regs + [s], region := c.region[s := r]);
    UsedElsewhere(a, c, c', s);
    hide CacheOk;
  }

  /** A new vectorial region joins reg_vect_list. */
  lemma AddedVect(a: Cache, c: Cache, s: nat, r: Region, regcache: bool)
    requires CacheOk(c, {s}, {}) && Sole(c, regcache) && s < |c.region| && KeepsUsed(a, c) && !InUse(a, s)
    requires r.vect && r.useCount == 1
    ensures var c' := c.(vects := c.vects + [s], region := c.region[s := r]);
            CacheOk(c', {}, {}) && Sole(c', regcache) && KeepsUsed(a, c') && s !in c.vects
  {
    HeldChanges(c, s, r);
    HeldElsewhere(c, s);
    EnlistKeeps(c.(region := c.region[s := r]), s);
    var c' := c.(vects := c.vects + [s], region := c.region[s := r]);
    UsedElsewhere(a, c, c', s);
    hide CacheOk;
  }
}
