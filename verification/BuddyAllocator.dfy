/** The page allocator itself: list heads, flag words and in-block nodes updated in
    place, refining the steps of BuddyRuns. Addresses are page numbers. */
module BuddyAllocator {
  import opened Words
  import opened Rings
  import opened BuddyPool
  import opened BuddyMetadata
  import opened BuddyInit
  import opened BuddyRuns

  datatype BlockLevel = BlockLevel(head: nat, offset: nat)

  ghost predicate HeadsShow(a: Area, levels: seq<BlockLevel>, pool: Pool)
  {
    && |levels| == |pool| == a.top + 1
    && forall l | 0 <= l <= a.top :: levels[l].head == pool[l].head && levels[l].offset == Offset(a.size, l)
  }

  class PageAllocator {
    const area: Area
    const levels: array<BlockLevel>
    const flags: array<nat>
    var allocMem: int
    var freeMem: int

    // The memory served: the node words at the start of every page.
    const nodes: array<BlockNode>

    ghost var pool: Pool
    ghost var live: set<int>

    /** Builds the block levels and returns the words of metadata they need. */
    static method MakeLevels(pages: nat, top: nat) returns (levels: array<BlockLevel>, words: nat)
      ensures fresh(levels) && levels.Length == top + 1 && words == Offset(pages, top + 1)
      ensures forall l | 0 <= l <= top :: levels[l] == BlockLevel(0, Offset(pages, l))
    {
      hide Offset, Shr, PairWords;
      OffsetStep(pages, 0);
      levels := new BlockLevel[top + 1];
      var blocks, offset, l := pages, 0, 0;
      while l <= top
        invariant 0 <= l <= top + 1 && blocks == Shr(pages, l) && offset == Offset(pages, l)
        invariant forall m | 0 <= m < l :: levels[m] == BlockLevel(0, Offset(pages, m))
        invariant fresh(levels)
      {
        levels[l] := BlockLevel(0, offset);
        ShrStep(pages, l);
        OffsetStep(pages, l);
        blocks, offset := blocks / 2, offset + PairWords(blocks);
        l := l + 1;
      }
      words := offset;
    }

    /** The size callers reserve is the size the levels use. */
    static method CalcMetadataSize(pages: nat, top: nat) returns (words: nat)
      ensures words == Offset(pages, top + 1)
    {
      var blocks, l := pages, 0;
      words := 0;
      while l <= top
        invariant 0 <= l <= top + 1 && blocks == Shr(pages, l) && words == Offset(pages, l)
      {
        ShrStep(pages, l);
        blocks, words := blocks / 2, words + PairWords(blocks);
        l := l + 1;
      }
    }

    /** A new allocator for the available ranges, keeping its flags in the metadata
        words and its nodes in the memory served. */
    constructor (area: Area, ranges: seq<Range>, metadata: array<nat>, memory: array<BlockNode>)
      requires Available(area, ranges)
      requires metadata.Length == MetadataWords(area) && memory.Length == area.size
      modifies metadata, memory
      ensures Stored() && this.area == area && flags == metadata && nodes == memory && fresh(levels)
      ensures View() == State(Initial(area, ranges), {}, Total(ranges), 0)
      ensures Starts(area, ranges, AllPages(ranges), View())
    {
      hide Starts, Sound, FlagsShow, NodesShow, AllPages, Total, Initial, Fill, Pow2, MetadataWords, Offset;
      var levels, words := MakeLevels(area.size, area.top);
      this.area := area;
      this.levels := levels;
      this.flags := metadata;
      this.nodes := memory;
      this.allocMem := 0;
      this.freeMem := Total(ranges);
      this.pool := Empty(area);
      this.live := {};
      new;
      ClearFlags();
      InitMetadata(ranges);
      ConstructedStarts(area, ranges);
    }

    /** Zeroes the flags of an allocator with no blocks. */
    method ClearFlags()
      requires Multiple(area.base, area.top) && pool == Empty(area) && HeadsShow(area, levels[..], pool)
      requires flags.Length == MetadataWords(area) && nodes.Length == area.size
      modifies flags
      ensures Stored()
    {
      var i := 0;
      while i < flags.Length
        invariant 0 <= i <= flags.Length && forall j | 0 <= j < i :: flags[j] == 0
      {
        flags[i] := 0;
        i := i + 1;
      }
      EmptyShows(area, flags[..], nodes[..]);
    }

    method InitMetadata(ranges: seq<Range>)
      requires Stored() && Available(area, ranges) && pool == Empty(area)
      modifies this`pool, levels, flags, nodes
      ensures Stored() && pool == Initial(area, ranges)
    {
      var i := 0;
      InitialPrefix(area, ranges, 0);
      while i < |ranges|
        invariant 0 <= i <= |ranges| && Stored()
        invariant Available(area, ranges[..i]) && pool == Initial(area, ranges[..i])
      {
        InitialStep(area, ranges, i);
        InitRange(ranges[i]);
        i := i + 1;
      }
      assert ranges[..i] == ranges;
    }

    /** Lists the blocks of one available range, largest possible first. */
    method InitRange(r: Range)
      requires Stored() && Fits(area, r.base, r.size) && RangeUnused(pool, r.base, End(r))
      modifies this`pool, levels, flags, nodes
      ensures Stored() && pool == Fill(area, old(pool), r, r.base)
    {
      hide Sound, Placed, NodesShow, FlagsShow, Consistent, Unused, FloorLog2, LowestBit, RangeUnused, Fill;
      ghost var target := Fill(area, pool, r, r.base);
      var addr, remaining := r.base, r.size;
      while remaining >= 1
        invariant Stored() && 0 < addr && r.base <= addr && addr + remaining == End(r)
        invariant RangeUnused(pool, addr, End(r)) && Fill(area, pool, r, addr) == target
      {
        var maxLevel := Min(LowestBit(addr), area.top);
        var level := Min(FloorLog2(remaining), maxLevel);
        var size := Pow2(level);
        assert level == LevelAt(area.top, addr, remaining);
        FillNext(area, pool, r, addr);
        AddToList(level, addr);
        addr := addr + size;
        remaining := remaining - size;
      }
      FillEnd(area, pool, r);
    }

    ghost predicate Stored()
      reads this`pool, levels, flags, nodes
    {
      && Multiple(area.base, area.top)
      && Sound(area, pool)
      && HeadsShow(area, levels[..], pool)
      && FlagsShow(area, flags[..], pool)
      && NodesShow(area, nodes[..], pool)
    }

    ghost function View(): State
      reads this
    {
      State(pool, live, freeMem, allocMem)
    }

    method GetFlagIndexAndBit(block: nat, level: nat) returns (index: nat, bit: nat)
      requires Stored() && Placed(area, Block(block, level)) && level <= area.top
      ensures index == FlagWord(area, Block(block, level)) < flags.Length
      ensures bit == FlagBit(area, Block(block, level))
    {
      FlagInSlice(area, Block(block, level));
      var pageNum := block - area.base;
      var blockNum := Shr(pageNum, level);
      var blockPair := blockNum / 2;
      index := levels[level].offset + blockPair / WORD_BITS;
      bit := blockPair % WORD_BITS;
    }

    /** Adds a block to the tail of a level's list. */
    method AddToList(level: nat, block: nat)
      requires Stored() && level <= area.top
      requires Placed(area, Block(block, level)) && Unused(pool, Block(block, level))
      modifies this`pool, levels, flags, nodes
      ensures Stored()
      ensures old(pool[level].head != 0 ==> pool[level].head in pool[level].prev)
      ensures pool == old(Add(pool, Block(block, level)))
    {
      hide Sound, Placed, NodesShow, Unused, FlagsShow, Multiple, Consistent, BlockNode.VerifyChecksum, Xor;
      ghost var b := Block(block, level);
      ghost var nodes0 := nodes[..];
      AddBlock(area, pool, b);
      FlipShows(area, flags[..], pool, b, Add(pool, b));
      BlockIndex(area, nodes0, pool, b);
      var index, bit := GetFlagIndexAndBit(block, level);
      var headAddr := levels[level].head;
      var i := block - area.base;

      if headAddr == 0 {
        levels[level] := levels[level].(head := block);
        nodes[i] := nodes[i].(next := block, prev := block).UpdateChecksum();
        UpdatedShows(BlockNode(block, block, 0));
        FirstPushShows(area, nodes0, pool, b, nodes[..]);
      } else {
        EndsOfList(area, nodes0, pool, b);
        AppendNode(block, headAddr);
        PushShows(area, nodes0, pool, b, nodes[..], Block(headAddr, level), Block(pool[level].prev[headAddr], level));
      }

      flags[index] := Xor(flags[index], Pow2(bit));
      pool := Add(pool, b);
    }

    /** The node writes of AddToList when the list has a head. */
    method AppendNode(block: nat, headAddr: nat)
      requires 0 <= block - area.base < nodes.Length && 0 <= headAddr - area.base < nodes.Length
      requires 0 <= nodes[headAddr - area.base].prev - area.base < nodes.Length
      requires block != headAddr && block != nodes[headAddr - area.base].prev
      requires nodes[headAddr - area.base].VerifyChecksum()
      requires nodes[nodes[headAddr - area.base].prev - area.base].VerifyChecksum()
      modifies nodes
      ensures var tail := old(nodes[headAddr - area.base].prev);
              && SameNodesBut(area, old(nodes[..]), nodes[..], {block, headAddr, tail})
              && NodeShows(nodes[block - area.base], headAddr, tail)
              && NodeShows(nodes[headAddr - area.base],
                           if tail == headAddr then block else old(nodes[headAddr - area.base].next), block)
              && NodeShows(nodes[tail - area.base], block,
                           if tail == headAddr then block else old(nodes[tail - area.base].prev))
    {
      hide Xor;
      var base := area.base;
      var prevAddr := nodes[headAddr - base].prev;

      nodes[block - base] := nodes[block - base].(prev := prevAddr, next := headAddr).UpdateChecksum();
      UpdatedShows(BlockNode(headAddr, prevAddr, 0));

      UpdatedShows(nodes[headAddr - base].(prev := block));
      nodes[headAddr - base] := nodes[headAddr - base].(prev := block).UpdateChecksum();

      UpdatedShows(nodes[prevAddr - base].(next := block));
      nodes[prevAddr - base] := nodes[prevAddr - base].(next := block).UpdateChecksum();
    }

    /** Removes a specific block from a level's list. False means one of its
        assertions failed and the kernel panicked. */
    method RemoveFromList(level: nat, block: nat) returns (ok: bool)
      requires Stored() && level <= area.top && Linked(pool, Block(block, level))
      modifies this`pool, levels, flags, nodes
      ensures old(block in pool[level].prev)
      ensures ok <==> old(Remove(pool, Block(block, level))).Some?
      ensures ok ==> Stored() && Some(pool) == old(Remove(pool, Block(block, level)))
    {
      hide Sound, Placed, NodesShow, FlagsShow, Multiple, Consistent, BlockNode.VerifyChecksum, Xor;
      ghost var b := Block(block, level);
      ghost var nodes0 := nodes[..];
      NeighboursOf(area, nodes0, pool, b);
      RemoveBlock(area, pool, b);
      LinkedPlaced(area, pool, b);
      var index, bit := GetFlagIndexAndBit(block, level);
      var headAddr := levels[level].head;
      var i := block - area.base;

      if nodes[i].next == block {
        assert nodes[i].prev == nodes[i].next;
        if headAddr != block {
          return false;
        }
        levels[level] := levels[level].(head := 0);
        LoneRemoveShows(area, nodes0, pool, b);
      } else {
        ghost var n, q := Block(nodes[i].next, level), Block(nodes[i].prev, level);
        BypassNode(block);
        BypassShows(area, nodes0, pool, b, nodes[..], n, q);
        if block == headAddr {
          levels[level] := levels[level].(head := nodes[i].next);
        }
      }

      FlipShows(area, flags[..], pool, b, Remove(pool, b).value);
      flags[index] := Xor(flags[index], Pow2(bit));
      pool := Remove(pool, b).value;
      ok := true;
    }

    /** The node writes of RemoveFromList when the block has neighbours: they are
        joined, and the block's own words are cleared. */
    method BypassNode(block: nat)
      requires 0 <= block - area.base < nodes.Length
      requires var n := nodes[block - area.base];
               && 0 <= n.next - area.base < nodes.Length && 0 <= n.prev - area.base < nodes.Length
               && n.next != block && n.prev != block
               && nodes[n.next - area.base].VerifyChecksum() && nodes[n.prev - area.base].VerifyChecksum()
      modifies nodes
      ensures var n := old(nodes[block - area.base]);
              && SameNodesBut(area, old(nodes[..]), nodes[..], {block, n.next, n.prev})
              && nodes[block - area.base].next == 0
              && NodeShows(nodes[n.next - area.base],
                           if n.next == n.prev then n.next else old(nodes[n.next - area.base].next), n.prev)
              && NodeShows(nodes[n.prev - area.base], n.next,
                           if n.next == n.prev then n.next else old(nodes[n.prev - area.base].prev))
    {
      hide Xor;
      var base := area.base;
      var next, prev := nodes[block - base].next, nodes[block - base].prev;

      UpdatedShows(nodes[next - base].(prev := prev));
      nodes[next - base] := nodes[next - base].(prev := prev).UpdateChecksum();

      UpdatedShows(nodes[prev - base].(next := next));
      nodes[prev - base] := nodes[prev - base].(next := next).UpdateChecksum();

      nodes[block - base] := BlockNode(0, 0, 0);
    }

    /** Pops the head of a level's list. */
    method PopFromList(level: nat) returns (block: nat)
      requires Stored() && level <= area.top && pool[level].head != 0
      modifies this`pool, levels, flags, nodes
      ensures Stored() && block == old(pool[level].head)
      ensures old(Linked(pool, Block(block, level)) && block in pool[level].prev)
      ensures Some(pool) == old(Remove(pool, Block(block, level)))
    {
      block := levels[level].head;
      HeadsLinked(area, pool);
      RemoveBlock(area, pool, Block(block, level));
      var ok := RemoveFromList(level, block);
    }

    /** Splits the first free block of a level until it is the required size. */
    method SplitFreeBlock(level: nat, minLevel: nat) returns (block: nat)
      requires Stored() && minLevel <= level <= area.top && pool[level].head != 0
      requires FirstLevel(pool, minLevel) == level
      modifies this`pool, levels, flags, nodes
      ensures Stored() && Taken(block, pool) == Allocate(area, old(pool), minLevel)
    {
      hide Sound, Placed, NodesShow, FlagsShow, Multiple, Consistent, Unused, FirstLevel, Split, Allocate;
      ghost var before := pool;
      HeadSplit(area, pool, minLevel);
      block := PopFromList(level);
      var l := level;
      while l > minLevel
        invariant Stored() && minLevel <= l <= level
        invariant Placed(area, Block(block, l)) && Unused(pool, Block(block, l))
        invariant Taken(block, Split(area, pool, block, l, minLevel)) == Allocate(area, before, minLevel)
      {
        SplitNext(area, pool, block, l, minLevel);
        l := l - 1;
        AddOddHalf(block, l);
      }
      SplitEnd(area, pool, block, minLevel);
    }

    /** One step of SplitFreeBlock: lists the odd half of the block above level l. */
    method AddOddHalf(block: nat, l: nat)
      requires Stored() && l < area.top
      requires Placed(area, Block(block, l + 1)) && Unused(pool, Block(block, l + 1))
      modifies this`pool, levels, flags, nodes
      ensures Stored()
      ensures old(pool[l].head != 0 ==> pool[l].head in pool[l].prev)
      ensures pool == old(Add(pool, Block(block + Pow2(l), l)))
    {
      hide Sound, Placed, NodesShow, FlagsShow, Multiple, Consistent, Unused, Or;
      NaturallyAligned(area, Block(block, l + 1));
      SplitStep(area, pool, block, l + 1);
      OrAligned(block, l);
      var buddyAddr := Or(block, Pow2(l));
      AddToList(l, buddyAddr);
    }

    /** The search of Acquire: the lowest level from minLevel up with a free block. */
    method LowestLevel(minLevel: nat) returns (level: nat)
      requires Stored()
      ensures minLevel <= level
      ensures level <= area.top ==> minLevel <= |pool| && level == FirstLevel(pool, minLevel) && pool[level].head != 0
      ensures level > area.top ==> minLevel > area.top || FirstLevel(pool, minLevel) == |pool|
    {
      level := minLevel;
      while level < levels.Length && levels[level].head == 0
        invariant minLevel <= level
        invariant minLevel <= levels.Length ==> level <= levels.Length
        invariant forall m | minLevel <= m < level && m < levels.Length :: pool[m].head == 0
      {
        level := level + 1;
      }
    }

    /** The loop of Acquire: takes a block of minLevel off the lowest level that has
        one, or returns 0. */
    method TakeBlock(minLevel: nat) returns (block: nat)
      requires Stored()
      modifies this`pool, levels, flags, nodes
      ensures Stored()
      ensures Allocate(area, old(pool), minLevel) == if block == 0 then NoBlock else Taken(block, pool)
      ensures block == 0 ==> pool == old(pool)
    {
      ghost var before := pool;
      var level := LowestLevel(minLevel);
      if level > area.top {
        return 0;
      }
      block := SplitFreeBlock(level, minLevel);
      AllocateSafe(area, before, minLevel);
    }

    /** Attempts to allocate a contiguous block of pages. */
    method Acquire(pages: nat) returns (r: Option<(nat, nat)>)
      requires Stored()
      modifies this, levels, flags, nodes
      ensures Stored()
      ensures AcquireStep(area, old(View()), pages) ==
              Done(View(), if r.None? then None else Some(Block(r.value.0, CeilLog2(pages))))
      ensures r.Some? ==> r.value.1 == Pow2(CeilLog2(pages))
    {
      hide Sound, HeadsShow, FlagsShow, NodesShow, Multiple, Allocate, AcquireStep, Pow2, CeilLog2, Pages;
      if pages == 0 {
        AcquireNothing(area, View());
        return None;
      }
      ghost var s := View();
      var minLevel := CeilLog2(pages);
      AcquireTaken(area, s, pages, minLevel);
      var block := TakeBlock(minLevel);
      if block == 0 {
        return None;
      }
      var size := Pow2(minLevel);
      Account(size, live + Pages(Block(block, minLevel)));
      return Some((block, size));
    }

    /** Moves pages between the two counters, from free to allocated. */
    method Account(size: int, ghost newLive: set<int>)
      modifies this`freeMem, this`allocMem, this`live
      ensures View() == State(pool, newLive, old(freeMem) - size, old(allocMem) + size)
    {
      freeMem := freeMem - size;
      allocMem := allocMem + size;
      live := newLive;
    }

    /** Frees a block of memory. False means an assertion failed and the kernel
        panicked. Callers must not free a block that is free already. */
    method Free(block: nat, pages: nat) returns (ok: bool)
      requires Stored()
      requires block != 0 && pages != 0 && Acceptable(area, block, pages) ==>
                 Unused(pool, Block(block, FloorLog2(pages)))
      modifies this, levels, flags, nodes
      ensures ok ==> Stored() && Done(View(), None) == ReleaseStep(area, old(View()), block, pages)
      ensures !ok ==> ReleaseStep(area, old(View()), block, pages) == Panic
    {
      hide Sound, HeadsShow, FlagsShow, NodesShow, Multiple, Acceptable, ReleaseStep, FloorLog2, Pages, Unused,
        Placed, Coalesce;
      ghost var s := View();
      SoundSize(area, pool);
      ReleaseCases(area, s, block, pages);
      if block == 0 || pages == 0 {
        return true;
      }
      var minLevel;
      ok, minLevel := CheckArguments(block, pages);
      if ok {
        ok := CoalesceBlock(block, minLevel);
        if ok {
          var size: int := pages;
          ghost var b := Block(block, minLevel);
          assert Coalesce(area, s.pool, b).pool == pool && !Coalesce(area, s.pool, b).Panicked?;
          Account(-size, s.live - Pages(b));
          assert View() == State(pool, s.live - Pages(b), s.free + pages, s.alloc - pages);
        }
      }
    }

    /** The assertions Free makes about its arguments. */
    method CheckArguments(block: nat, pages: nat) returns (ok: bool, minLevel: nat)
      requires Stored() && block > 0 && pages > 0
      ensures ok <==> Acceptable(area, block, pages)
      ensures minLevel == FloorLog2(pages)
    {
      assert levels.Length == area.top + 1;
      AcceptableTests(area, block, pages);
      hide Acceptable, FloorLog2, And, Stored;
      minLevel := FloorLog2(pages);
      ok := And(pages, pages - 1) == 0 && minLevel < levels.Length && And(block, pages - 1) == 0
            && block >= area.base && block + pages - 1 <= area.base + area.size - 1;
    }

    /** The loop of Free: merges the block with its buddies and lists the result. */
    method CoalesceBlock(block: nat, minLevel: nat) returns (ok: bool)
      requires Stored() && minLevel <= area.top
      requires Placed(area, Block(block, minLevel)) && Unused(pool, Block(block, minLevel))
      modifies this`pool, levels, flags, nodes
      ensures var r := Coalesce(area, old(pool), Block(block, minLevel));
              if ok then Stored() && (r == Listed(pool) || r == Dropped(pool)) else r == Panicked
    {
      hide Sound, NodesShow, FlagsShow, Multiple, Consistent, Unused, And, Xor, Shr, Placed, Remove, Coalesce, Buddy,
        Merged;
      ghost var target := Coalesce(area, pool, Block(block, minLevel));
      var base, level := block, minLevel;
      while level < levels.Length
        invariant Stored() && minLevel <= level <= levels.Length
        invariant Placed(area, Block(base, level)) && Unused(pool, Block(base, level))
        invariant Coalesce(area, pool, Block(base, level)) == target
      {
        ghost var b := Block(base, level);
        CoalesceEnds(area, pool, b);
        var index, bit := GetFlagIndexAndBit(base, level);
        FlagTellsBuddy(area, flags[..], pool, b);
        if And(flags[index], Pow2(bit)) == 0 {
          AddToList(level, base);
          return true;
        }
        CoalesceMerges(area, pool, b);
        BuddyByXor(area.base, b);
        var buddyAddr := Xor(base - area.base, Pow2(level)) + area.base;
        var removed := RemoveFromList(level, buddyAddr);
        if !removed {
          return false;
        }
        base := if base <= buddyAddr then base else buddyAddr;
        level := level + 1;
      }
      CoalesceEnds(area, pool, Block(base, level));
      ok := true;
    }
  }
}
