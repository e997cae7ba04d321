/** Building page tables in memory: the two fill strategies, descending through the levels
    and taking zeroed tables from the page allocator as they go. */
module PageTables {
  import opened Rings
  import opened PageWalk
  import opened PageFill
  import opened PageAstray

  /** Done; an assertion or unwrap failed; or the loop goes round for ever, each time with
      nothing to fill. */
  datatype Outcome = Done | Panicked | Endless

  /** Pages the allocator will give: none is a table yet, and none comes twice. */
  ghost predicate PoolFresh(pool: seq<int>, mem: Memory)
  {
    Distinct(pool) && forall a | a in pool :: a !in mem
  }

  lemma PoolTaken(pool: seq<int>, mem: Memory)
    requires PoolFresh(pool, mem) && pool != []
    ensures pool[0] !in mem && PoolFresh(pool[1..], mem[pool[0] := ZeroTable()])
  {
    assert pool[0] in pool && pool == [pool[0]] + pool[1..];
  }

  lemma PoolKept(pool: seq<int>, mem: Memory, t: int, i: nat, d: Desc)
    requires PoolFresh(pool, mem) && t in mem && i < |mem[t]|
    ensures PoolFresh(pool, WriteEntry(mem, t, i, d))
  {
  }

  ghost function Elements(pool: seq<int>): set<int>
  {
    set a | a in pool
  }

  /** Every page taken from the allocator is a table now, and no table is lost. */
  ghost predicate PagesKept(mem: Memory, pool: seq<int>, mem': Memory, pool': seq<int>)
  {
    mem'.Keys + Elements(pool') == mem.Keys + Elements(pool) && mem.Keys <= mem'.Keys
  }

  lemma NoPageTaken(mem: Memory, pool: seq<int>)
    ensures PagesKept(mem, pool, mem, pool)
  {
  }

  lemma PageTaken(mem: Memory, pool: seq<int>)
    requires pool != []
    ensures PagesKept(mem, pool, mem[pool[0] := ZeroTable()], pool[1..])
  {
    assert pool == [pool[0]] + pool[1..];
    assert mem[pool[0] := ZeroTable()].Keys == mem.Keys + {pool[0]};
    assert Elements(pool) == {pool[0]} + Elements(pool[1..]);
  }

  lemma PagesKeptMore(mem0: Memory, pool0: seq<int>, mem: Memory, pool: seq<int>, mem': Memory, pool': seq<int>)
    requires PagesKept(mem0, pool0, mem, pool) && PagesKept(mem, pool, mem', pool')
    ensures PagesKept(mem0, pool0, mem', pool')
  {
  }

  lemma PagesKeptWrite(mem0: Memory, pool0: seq<int>, mem: Memory, pool: seq<int>, t: int, i: nat, d: Desc)
    requires PagesKept(mem0, pool0, mem, pool) && t in mem && i < |mem[t]|
    ensures PagesKept(mem0, pool0, WriteEntry(mem, t, i, d), pool)
  {
    assert WriteEntry(mem, t, i, d).Keys == mem.Keys;
  }

  class PageTables {
    var mem: Memory
    var pool: seq<int>
    ghost var home: map<int, Home>

    ghost predicate Valid()
      reads this
    {
      Rooted(mem, home) && PoolFresh(pool, mem)
    }

    /** Fills a range from a table on, with the given strategy. */
    method FillTable(ghost h: Home, l: nat, t: int, v: nat, b: int, n: nat, device: bool, s: Strategy)
      returns (r: Outcome)
      requires Valid() && t in mem && home[t] == h && h.level == l
      modifies this
      ensures PagesKept(old(mem), old(pool), mem, pool)
      ensures r.Done? ==> Valid() && Written(s, old(mem), old(home), mem, home, t, v, n, b, device)
      ensures r.Endless? ==> s.Compact? && !Fits(s, l, v, n)
      ensures r.Panicked? ==> pool == [] || (l == 1 && s.Compact? && HoldsEntry(1, v, n))
      ensures r.Done? && l == 1 && s.Compact? ==> !HoldsEntry(1, v, n)
      decreases 4 - l, 2
    {
      match s
      case Compact => r := FillTableCompact(h, l, t, v, b, n, device);
      case Granular => r := FillTableGranular(h, l, t, v, b, n, device);
    }

    /** Fills the range with the largest entries that fit. */
    method FillTableCompact(ghost h: Home, l: nat, t: int, v0: nat, b0: int, n0: nat, device: bool)
      returns (r: Outcome)
      requires Valid() && t in mem && home[t] == h && h.level == l
      modifies this
      ensures PagesKept(old(mem), old(pool), mem, pool)
      ensures r.Done? ==> Valid() && Written(Compact, old(mem), old(home), mem, home, t, v0, n0, b0, device)
      ensures r.Endless? ==> !Fits(Compact, l, v0, n0)
      ensures r.Panicked? ==> pool == [] || (l == 1 && HoldsEntry(1, v0, n0))
      ensures r.Done? && l == 1 ==> !HoldsEntry(1, v0, n0)
      decreases 4 - l, 1
    {
      hide Rooted, CompactSoFar, Lowered, Written, Index, Into, Span, EntrySize, Fits, HoldsEntry, WholeAhead,
        PagesKept;
      ghost var mem0, home0 := mem, home;
      ghost var pool0 := pool;
      NoPageTaken(mem, pool);
      RootedKeys(mem, home);
      HomeLevel(h);
      CompactStart(mem, home, t, v0, n0, b0, device);
      WholeStart(l, v0, n0);
      var v, b, n := v0, b0, n0;
      ghost var done := 0;
      while n > 0
        invariant Valid() && t in mem && t in home && home[t] == h && done <= n0
        invariant v == v0 + done && b == b0 + done && n == n0 - done
        invariant WholeAhead(l, v0, n0, done)
        invariant CompactSoFar(mem0, home0, mem, home, t, v0, n0, done, b0, device)
        invariant PagesKept(mem0, pool0, mem, pool)
      {
        RootedKeys(mem, home);
        CompactNext(mem0, home0, mem, home, t, v0, n0, done, b0, device);
        var i := Index(v, l);
        var f := EntrySize(l);
        if Into(v, l) != 0 || n < EntrySize(l) {
          f := if Into(v, l) != 0 then Into(n, l) else n;
          ghost var mem1, home1, pool1 := mem, home, pool;
          var desc;
          r, desc := AllocTableAndFill(h, l, t, mem[t][i], v, b, f, device, Compact);
          PagesKeptMore(mem0, pool0, mem1, pool1, mem, pool);
          if !r.Done? {
            return r;
          }
          LoweredKept(Compact, mem1, home1, mem, home, t, desc.addr, v, f, b, device);
          if f > 0 {
            WholeStays(l, v0, n0, done, f);
            CompactLowered(mem0, home0, mem1, home1, mem, home, t, desc.addr, v0, n0, done, f, b0, device);
          }
          PoolKept(pool, mem, t, i, desc);
          PagesKeptWrite(mem0, pool0, mem, pool, t, i, desc);
          mem := WriteEntry(mem, t, i, desc);
          if f == 0 {
            // The next round begins as this one did, and the entry is a table already.
            return Endless;
          }
        } else {
          if l == 1 {
            WholeEntry(l, v0, n0, done);
            return Panicked;
          }
          var p := b - b % EntrySize(l);
          WholeAbsent(l, v0, n0, done + f);
          CompactWrote(mem0, home0, mem, home, t, v0, n0, done, b0, device, p);
          PoolKept(pool, mem, t, i, Leaf(p, device));
          PagesKeptWrite(mem0, pool0, mem, pool, t, i, Leaf(p, device));
          mem := WriteEntry(mem, t, i, Leaf(p, device));
        }
        v, b, n, done := v + f, b + f, n - f, done + f;
      }
      r := Done;
      WholeDone(l, v0, n0);
      CompactEnd(mem0, home0, mem, home, t, v0, n0, b0, device);
    }

    /** Fills the range with page entries. */
    method FillTableGranular(ghost h: Home, l: nat, t: int, v0: nat, b0: int, n0: nat, device: bool)
      returns (r: Outcome)
      requires Valid() && t in mem && home[t] == h && h.level == l
      modifies this
      ensures PagesKept(old(mem), old(pool), mem, pool)
      ensures r.Done? ==> Valid() && Written(Granular, old(mem), old(home), mem, home, t, v0, n0, b0, device)
      ensures !r.Endless? && (r.Panicked? ==> pool == [])
      decreases 4 - l, 1
    {
      hide Rooted, GranularSoFar, Lowered, Written, Index, Into, Span, EntrySize, Fits, PagesKept;
      ghost var mem0, home0 := mem, home;
      ghost var pool0 := pool;
      NoPageTaken(mem, pool);
      RootedKeys(mem, home);
      HomeLevel(h);
      GranularStart(mem, home, t, v0, n0, b0, device);
      var v, b, n := v0, b0, n0;
      ghost var done := 0;
      while true
        invariant Valid() && t in mem && t in home && home[t] == h && done < Pages(Granular, n0)
        invariant v == v0 + done && b == b0 + done
        invariant if done == 0 then n == n0 else done >= EntrySize(l) && n > 0 && n == n0 - done
        invariant GranularSoFar(mem0, home0, mem, home, t, v0, n0, done, b0, device)
        invariant PagesKept(mem0, pool0, mem, pool)
        decreases n
      {
        RootedKeys(mem, home);
        SizeAt(l);
        var i := Index(v, l);
        ghost var step := if n <= EntrySize(l) then Pages(Granular, n) else EntrySize(l);
        if l < 4 {
          ghost var mem1, home1, pool1 := mem, home, pool;
          var desc;
          r, desc := AllocTableAndFill(h, l, t, mem[t][i], v, b, n, device, Granular);
          PagesKeptMore(mem0, pool0, mem1, pool1, mem, pool);
          if !r.Done? {
            return r;
          }
          LoweredKept(Granular, mem1, home1, mem, home, t, desc.addr, v, n, b, device);
          GranularLowered(mem0, home0, mem1, home1, mem, home, t, desc.addr, v0, n0, done, n, step, b0, device);
          PoolKept(pool, mem, t, i, desc);
          PagesKeptWrite(mem0, pool0, mem, pool, t, i, desc);
          mem := WriteEntry(mem, t, i, desc);
        } else {
          GranularWrote(mem0, home0, mem, home, t, v0, n0, done, b0, device);
          PoolKept(pool, mem, t, i, Leaf(b, device));
          PagesKeptWrite(mem0, pool0, mem, pool, t, i, Leaf(b, device));
          mem := WriteEntry(mem, t, i, Leaf(b, device));
        }
        done := done + step;
        if n <= EntrySize(l) {
          break;
        }
        v, b, n := v + EntrySize(l), b + EntrySize(l), n - EntrySize(l);
      }
      r := Done;
      GranularEnd(mem0, home0, mem, home, t, v0, n0, b0, device);
    }

    /** Fills a lower table for one entry, taking a new one unless the entry leads to one;
        returns the entry's descriptor. */
    method AllocTableAndFill(ghost h: Home, l: nat, ghost t: int, desc: Desc, v: nat, b: int, n: nat, device: bool,
                             s: Strategy)
      returns (r: Outcome, desc': Desc)
      requires Valid() && t in mem && home[t] == h && h.level == l < 4 && desc == Entry(mem, l, t, v)
      modifies this
      ensures PagesKept(old(mem), old(pool), mem, pool)
      ensures r.Done? ==>
                Valid() && desc'.Table? && Lowered(s, old(mem), old(home), mem, home, t, desc'.addr, v, n, b, device)
      ensures r.Endless? ==> s.Compact? && !Fits(s, l + 1, v, n)
      ensures r.Panicked? ==> pool == []
      decreases 4 - l, 0
    {
      hide Rooted, Lowered, Written, Index, Into, Span, EntrySize, Fits, HoldsEntry, PagesKept;
      ghost var mem0, home0 := mem, home;
      ghost var pool0 := pool;
      NoPageTaken(mem, pool);
      RootedKeys(mem, home);
      HomeLevel(h);
      desc' := desc;
      ghost var c := ChildHome(h, Index(v, l));
      ChildInside(h, v);
      if !desc.Table? {
        if pool == [] {
          return Panicked, desc;
        }
        var next := pool[0];
        PoolTaken(pool, mem);
        PageTaken(mem, pool);
        ZeroRooted(mem, home, t, v, next);
        pool := pool[1..];
        mem := mem[next := ZeroTable()];
        home := home[next := c];
        desc' := Table(next);
      } else {
        EntryPoints(mem, home, t, v);
      }
      ghost var low, lowHome, lowPool := mem, home, pool;
      r := FillTable(c, l + 1, desc'.addr, v, b, n, device, s);
      PagesKeptMore(mem0, pool0, low, lowPool, mem, pool);
      if r.Done? {
        LoweredFrom(s, mem0, home0, low, lowHome, mem, home, t, desc'.addr, v, n, b, device);
      }
    }

    /** Maps a range of pages into the address space of a root table. */
    method MapMemory(root: int, v: nat, b: int, n: nat, device: bool, s: Strategy) returns (r: Outcome)
      requires Valid() && root in mem && home[root].level == 1 && InTable(home[root], v, Pages(s, n))
      modifies this
      ensures PagesKept(old(mem), old(pool), mem, pool)
      ensures r.Done? ==> Valid() && root in home && home[root] == old(home)[root]
      ensures r.Endless? ==> s.Compact? && !Fits(s, 1, v, n)
      ensures r.Panicked? ==> pool == [] || (s.Compact? && HoldsEntry(1, v, n))
      ensures r.Done? ==> !(s.Compact? && HoldsEntry(1, v, n))
      ensures r.Done? && Fits(s, 1, v, n) ==>
                (WalksMapped(old(mem), mem, old(home)[root], root, v, Pages(s, n), b, device)
                 <==> Faithful(s, 1, v, Pages(s, n), b))
      ensures r.Done? && old(mem)[root] == ZeroTable() ==>
                (MapsJust(mem, old(home)[root], root, v, Pages(s, n), b, device)
                 <==> Fits(s, 1, v, n) && Faithful(s, 1, v, Pages(s, n), b))
      ensures r.Done? ==>
                forall x | x in old(mem) && old(home)[x].root != old(home)[root].root ::
                  x in mem && mem[x] == old(mem)[x]
    {
      hide Rooted, Fits, Written, HoldsEntry, Faithful, WalksMapped, MapsJust, PagesKept;
      RootedKeys(mem, home);
      r := FillTable(home[root], 1, root, v, b, n, device, s);
      if r.Done? {
        WrittenWalks(s, old(mem), old(home), mem, home, root, v, n, b, device);
        WrittenElsewhere(s, old(mem), old(home), mem, home, root, v, n, b, device);
      }
    }
  }
}
