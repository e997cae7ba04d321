/** What filling a range of pages entry by entry leaves, and which ranges the two fill
    strategies cut at entry boundaries. */
module PageFill {
  import opened Rings
  import opened PageWalk

  // --------------------------------------------------------------------- the cut

  datatype Strategy = Compact | Granular

  /** A granular fill maps a page even when asked for none. */
  function Pages(s: Strategy, n: nat): nat
  {
    if s.Granular? && n == 0 then 1 else n
  }

  /** How much of the range the code fills at v's entry. Off the entry boundary, compact
      fills the size modulo the entry size; granular always passes the whole size on. */
  function Chunk(s: Strategy, l: nat, v: nat, n: nat): nat
  {
    if s.Granular? then (if l >= 4 then 1 else Pages(s, n))
    else if Into(v, l) != 0 then Into(n, l)
    else if n < EntrySize(l) then n
    else EntrySize(l)
  }

  /** The cut is right: it makes progress, stays in the entry, and ends the range or
      reaches the end of the entry. */
  predicate RightCut(s: Strategy, l: nat, v: nat, n: nat)
  {
    && 0 < Chunk(s, l, v, n) && Into(v, l) + Chunk(s, l, v, n) <= EntrySize(l)
    && (Chunk(s, l, v, n) == Pages(s, n) || Into(v, l) + Chunk(s, l, v, n) == EntrySize(l))
  }

  /** Off the entry boundary, the compact cut is right exactly when the range fits in the
      entry or ends on an entry boundary. */
  lemma CompactCutIff(l: nat, v: nat, n: nat)
    requires n > 0 && Into(v, l) != 0
    ensures RightCut(Compact, l, v, n) <==>
              Into(v, l) + n <= EntrySize(l) || Into(v + n, l) == 0
  {
    var e, r := EntrySize(l), Into(v, l);
    var q, m := v / e, n / e;
    assert v == e * q + r && n == e * m + n % e;
    assert v + n == e * (q + m) + (r + n % e);
    if r + n % e < e {
      DivisionIs(e, q + m, r + n % e);
      if m > 0 { Times(e, m); }
    } else {
      assert v + n == e * (q + m + 1) + (r + n % e - e);
      DivisionIs(e, q + m + 1, r + n % e - e);
      Times(e, m);
    }
  }

  /** The ranges a strategy fills right from a table at a level: compact, those that at
      the highest level where they do not fit in one entry start or end on an entry
      boundary; granular, those inside one entry of level 3. */
  predicate Fits(s: Strategy, l: nat, v: nat, n: nat)
    decreases 4 - l
  {
    if s.Compact? then
      n == 0 || l >= 4 || Into(v, l) == 0 || Into(v + n, l) == 0
      || (Into(v, l) + n <= EntrySize(l) && Fits(s, l + 1, v, n))
    else l >= 4 || (Into(v, l) + Pages(s, n) <= EntrySize(l) && Fits(s, l + 1, v, n))
  }

  /** What starts on an entry boundary does so at every level below. */
  lemma AlignedBelow(v: nat, l: nat)
    requires Into(v, l) == 0
    ensures Into(v, l + 1) == 0
  {
    var e := EntrySize(l + 1);
    var m := if EntrySize(l) == e then 1 else 512;
    assert EntrySize(l) == e * m;
    var q := v / EntrySize(l);
    assert v == (e * m) * q + 0;
    assert (e * m) * q == e * (m * q);
    DivisionIs(e, m * q, 0);
  }

  /** The compact cut, and what it says about the range: a wrong cut means the range does
      not fit, and the part cut off fits below exactly when the range fits. */
  lemma CompactCut(l: nat, v: nat, n: nat)
    requires n > 0 && 1 <= l <= 4
    ensures var f, right := Chunk(Compact, l, v, n), RightCut(Compact, l, v, n);
            && f <= n
            && (!right ==> !Fits(Compact, l, v, n))
            && (right && f < n ==> Fits(Compact, l, v, n) && Into(v + f, l) == 0)
            && (right && l < 4 ==> (Fits(Compact, l, v, n) <==> Fits(Compact, l + 1, v, f)))
            && (Into(v, l) == 0 ==> right && Fits(Compact, l, v, n))
  {
    hide EntrySize, Into;
    SizeAt(l);
    var f := Chunk(Compact, l, v, n);
    IntoAtMost(n, l);
    if Into(v, l) == 0 {
      if l < 4 { AlignedBelow(v, l); }
      if f == EntrySize(l) { EndsEntry(v, l, f); }
    } else {
      CompactCutIff(l, v, n);
      if Into(v + n, l) == 0 { AlignedBelow(v + n, l); }
      if Into(v, l) + f == EntrySize(l) {
        EndsEntry(v, l, f);
        AlignedBelow(v + f, l);
      }
    }
  }

  lemma SizeAt(l: nat)
    ensures EntrySize(l) > 0 && (l >= 4 ==> EntrySize(l) == 1 && forall v: nat :: Into(v, l) == 0)
  {
  }

  lemma IntoAtMost(n: nat, l: nat)
    ensures Into(n, l) <= n && (n < EntrySize(l) ==> Into(n, l) == n)
  {
    var e := EntrySize(l);
    assert n == e * (n / e) + n % e;
    if n / e > 0 { Times(e, n / e); }
    if n < e { DivisionIs(e, 0, n); }
  }

  lemma EndsEntry(v: nat, l: nat, f: nat)
    requires Into(v, l) + f == EntrySize(l)
    ensures Into(v + f, l) == 0
  {
    var e := EntrySize(l);
    assert v == e * (v / e) + v % e;
    assert v + f == e * (v / e + 1) + 0;
    DivisionIs(e, v / e + 1, 0);
  }

  // -------------------------------------------------------------------- congruence

  ghost predicate HoldsEntry(l: nat, v: nat, n: nat)
  {
    exists s: nat :: v <= s && s + EntrySize(l) <= v + n && Into(s, l) == 0
  }

  /** Wherever a fill from a table at the level down uses a block, the memory mapped is
      aligned like the pages it serves. */
  ghost predicate Congruent(l: nat, v: nat, n: nat, b: int)
  {
    forall k | l <= k && 2 <= k <= 3 :: HoldsEntry(k, v, n) ==> (b - v) % EntrySize(k) == 0
  }

  /** The granular fill writes no blocks. */
  ghost predicate Faithful(s: Strategy, l: nat, v: nat, n: nat, b: int)
  {
    s.Compact? ==> Congruent(l, v, n, b)
  }

  /** What starts on an entry boundary does so at all levels below. */
  lemma AlignedAtAll(v: nat, l: nat, k: nat)
    requires Into(v, l) == 0 && l <= k
    ensures Into(v, k) == 0
    decreases k - l
  {
    if l < k {
      AlignedBelow(v, l);
      AlignedAtAll(v, l + 1, k);
    }
  }

  /** An entry that holds pages before and after an entry boundary is a larger one. */
  lemma EntryNotCut(k: nat, s: nat, v: nat)
    requires Into(s, k) == 0 && Into(v, k) == 0 && s < v
    ensures s + EntrySize(k) <= v
  {
    var e := EntrySize(k);
    var q, m := s / e, v / e;
    assert s == e * q && v == e * m;
    assert v - s == e * (m - q);
    Times(e, m - q);
  }

  /** Congruence of a range is that of its parts on either side of an entry boundary. */
  lemma CongruentParts(l: nat, v: nat, n: nat, b: int, done: nat, f: nat)
    requires n == done + f && (done == 0 || Into(v + done, l) == 0)
    ensures Congruent(l, v, n, b) <==> Congruent(l, v, done, b) && Congruent(l, v + done, f, b + done)
  {
    hide Into, EntrySize;
    forall k | l <= k && 2 <= k <= 3
      ensures HoldsEntry(k, v, n) <==> HoldsEntry(k, v, done) || HoldsEntry(k, v + done, f)
    {
      if HoldsEntry(k, v, n) {
        var s: nat :| v <= s && s + EntrySize(k) <= v + n && Into(s, k) == 0;
        if done > 0 {
          AlignedAtAll(v + done, l, k);
          if s < v + done { EntryNotCut(k, s, v + done); }
        }
      }
    }
  }

  lemma FaithfulParts(s: Strategy, l: nat, v: nat, n: nat, b: int, done: nat, f: nat)
    requires n == done + f && (done == 0 || Into(v + done, l) == 0)
    ensures Faithful(s, l, v, n, b) <==> Faithful(s, l, v, done, b) && Faithful(s, l, v + done, f, b + done)
  {
    if s.Compact? { CongruentParts(l, v, n, b, done, f); }
  }

  /** A range smaller than an entry is congruent when it is from the level below. */
  lemma FaithfulBelow(s: Strategy, l: nat, v: nat, f: nat, b: int)
    requires s.Compact? ==> f < EntrySize(l)
    ensures Faithful(s, l, v, f, b) <==> Faithful(s, l + 1, v, f, b)
  {
    if s.Compact? { assert !HoldsEntry(l, v, f); }
  }

  /** One block is congruent exactly when masking the address of its memory changes
      nothing. */
  lemma BlockCongruentIff(l: nat, v: nat, b: int)
    requires 2 <= l <= 4 && Into(v, l) == 0
    ensures Congruent(l, v, EntrySize(l), b) <==> b % EntrySize(l) == 0
  {
    var e := EntrySize(l);
    assert v == e * (v / e);
    if l <= 3 {
      assert HoldsEntry(l, v, e);
      if (b - v) % e == 0 {
        assert b == e * ((b - v) / e + v / e) + 0;
        DivisionIs(e, (b - v) / e + v / e, 0);
      }
      if b % e == 0 {
        assert b - v == e * (b / e - v / e) + 0;
        DivisionIs(e, b / e - v / e, 0);
        if l == 2 {
          assert b - v == 512 * (512 * (b / e - v / e)) + 0;
          DivisionIs(512, 512 * (b / e - v / e), 0);
        }
      }
    }
  }

  // ----------------------------------------------------------------------- frames

  predicate Touches(h: Home, v: nat, n: nat)
  {
    n > 0 && h.first < v + n && v < h.first + Span(h.level)
  }

  ghost predicate Extends(home: map<int, Home>, home': map<int, Home>)
  {
    forall t | t in home :: t in home' && home'[t] == home[t]
  }

  /** Of the tables there were, only t and tables below it that serve the range may differ. */
  ghost predicate OnlyTouched(mem: Memory, home: map<int, Home>, mem': Memory, t: int, v: nat, n: nat)
    requires t in home
  {
    forall x | x in mem && x in home :: x in mem' && (mem'[x] == mem[x] || x == t || Below(home, t, x, v, n))
  }

  /** Only tables below t that serve the range may differ. */
  ghost predicate OnlyBelow(mem: Memory, home: map<int, Home>, mem': Memory, t: int, v: nat, n: nat)
    requires t in home
  {
    forall x | x in mem && x in home :: x in mem' && (mem'[x] == mem[x] || Below(home, t, x, v, n))
  }

  predicate Below(home: map<int, Home>, t: int, x: int, v: nat, n: nat)
    requires t in home && x in home
  {
    home[x].root == home[t].root && home[x].level > home[t].level && Touches(home[x], v, n)
  }

  /** The range is filled: where it is congruent its pages are mapped and the rest is as
      the old tables say, and where it is not some page leads to other memory. */
  ghost predicate Filled(s: Strategy, mem: Memory, home: map<int, Home>, mem': Memory, home': map<int, Home>, t: int,
                         v: nat, n: nat, b: int, device: bool)
    requires t in home
  {
    && Kept(mem, home, mem', home', t, v, n)
    && if Faithful(s, home[t].level, v, n, b) then WalksMapped(mem, mem', home[t], t, v, n, b, device)
       else Misled(mem', home[t], t, v, n, b)
  }

  /** Some page of the range leads to memory that is not its own. */
  ghost predicate Misled(mem: Memory, h: Home, t: int, v: nat, n: nat, b: int)
  {
    exists w: nat :: Covers(h, w) && InRange(w, v, n) && LeadsOff(mem, h.level, t, w, b + (w - v))
  }

  predicate LeadsOff(mem: Memory, l: nat, t: int, w: nat, page: int)
  {
    Walk(mem, l, t, w).Some? && Walk(mem, l, t, w).value.page != page
  }

  /** Nothing but what the range needs has changed. */
  ghost predicate Kept(mem: Memory, home: map<int, Home>, mem': Memory, home': map<int, Home>, t: int, v: nat, n: nat)
    requires t in home
  {
    && Extends(home, home') && OnlyTouched(mem, home, mem', t, v, n)
    && EntriesKept(mem, mem', home[t], t, v, n)
  }

  ghost predicate EntriesKept(mem: Memory, mem': Memory, h: Home, t: int, v: nat, n: nat)
  {
    forall w: nat | Covers(h, w) && EntryApart(w, h.level, v, n) ::
      Entry(mem', h.level, t, w) == Entry(mem, h.level, t, w)
  }

  ghost predicate WalksMapped(mem: Memory, mem': Memory, h: Home, t: int, v: nat, n: nat, b: int, device: bool)
  {
    forall w: nat | Covers(h, w) :: Walk(mem', h.level, t, w) == Expected(mem, h.level, t, w, v, n, b, device)
  }

  /** A lower table c has been filled for one entry of t. */
  ghost predicate Descended(s: Strategy, mem: Memory, home: map<int, Home>, mem': Memory, home': map<int, Home>,
                            t: int, c: int, v: nat, f: nat, b: int, device: bool)
    requires t in home
  {
    var h, d := ChildHome(home[t], Index(v, home[t].level)), Entry(mem, home[t].level, t, v);
    && Extends(home, home') && OnlyBelow(mem, home, mem', t, v, f)
    && c in home' && home'[c] == h && c in mem' && (d.Table? ==> c == d.addr)
    && if Faithful(s, h.level, v, f, b) then LowerMapped(mem, mem', h, d, c, v, f, b, device)
       else Misled(mem', h, c, v, f, b)
  }

  /** From the lower table the range is mapped and the rest is as the old descriptor says. */
  ghost predicate LowerMapped(mem: Memory, mem': Memory, h: Home, d: Desc, c: int,
                              v: nat, f: nat, b: int, device: bool)
  {
    forall w: nat | Covers(h, w) ::
      Walk(mem', h.level, c, w) ==
        if InRange(w, v, f) then Some(Out(b + (w - v), device))
        else if d.Table? then Survives(mem, h.level, c, w, v, f)
        else None
  }

  // ------------------------------------------------------------------------ steps

  /** Entries with pages on neither side share none. */
  lemma RangeInEntry(h: Home, v: nat, f: nat, w: nat)
    requires ProperHome(h) && Covers(h, v) && Covers(h, w) && Into(v, h.level) + f <= EntrySize(h.level)
    ensures EntryStart(v, h.level) != EntryStart(w, h.level) ==>
              forall x: nat | EntryStart(w, h.level) <= x < EntryStart(w, h.level) + EntrySize(h.level) ::
                !InRange(x, v, f)
  {
    SameEntry(h, v, w);
    EntryFacts(h, v);
  }

  /** Tables below t that serve a page of another entry than v's do not serve the range. */
  lemma OtherUntouched(home: map<int, Home>, t: int, x: int, v: nat, f: nat, w: nat)
    requires t in home && x in home && ProperHome(home[t]) && ProperHome(home[x]) && home[x].level > home[t].level
    requires Covers(home[t], v) && Covers(home[t], w) && Covers(home[x], w)
    requires Into(v, home[t].level) + f <= EntrySize(home[t].level)
    requires EntryStart(v, home[t].level) != EntryStart(w, home[t].level)
    ensures !Touches(home[x], v, f)
  {
    hide Into, EntrySize, Span, Index;
    LowerInside(home[x], home[t].level, w);
    SameEntry(home[t], v, w);
    EntryFacts(home[t], v);
    StartIs(v, home[t].level);
  }

  lemma StartIs(v: nat, l: nat)
    ensures EntryStart(v, l) == v - Into(v, l)
  {
  }

  /** A change inside v's entry leaves the walks of other entries' pages alone. */
  lemma OtherEntryWalks(mem: Memory, home: map<int, Home>, mem': Memory, t: int, v: nat, f: nat, w: nat)
    requires Rooted(mem, home) && t in mem && Covers(home[t], v) && Covers(home[t], w)
    requires Into(v, home[t].level) + f <= EntrySize(home[t].level)
    requires EntryStart(v, home[t].level) != EntryStart(w, home[t].level)
    requires OnlyTouched(mem, home, mem', t, v, f)
    requires Entry(mem', home[t].level, t, w) == Entry(mem, home[t].level, t, w)
    ensures Walk(mem', home[t].level, t, w) == Walk(mem, home[t].level, t, w)
  {
    hide Into, EntrySize, Span, Index, EntryStart;
    var l := home[t].level;
    var d := Entry(mem, l, t, w);
    if d.Table? && l < 4 {
      EntryLeads(mem, home, t, w);
      forall x | x in mem && x in home && home[x].root == home[t].root && home[x].level >= l + 1 && Covers(home[x], w)
        ensures x in mem' && mem'[x] == mem[x]
      {
        assert ProperHome(home[x]) && ProperHome(home[t]);
        OtherUntouched(home, t, x, v, f, w);
        assert !Below(home, t, x, v, f);
      }
      WalkFrame(mem, mem', home, d.addr, w, v, f);
    }
  }

  /** What is expected of another entry's pages does not change as the range grows. */
  lemma OtherExpected(mem: Memory, h: Home, t: int, v: nat, done: nat, f: nat, w: nat, b: int, device: bool)
    requires ProperHome(h) && Covers(h, v + done) && Covers(h, w)
    requires Into(v + done, h.level) + f <= EntrySize(h.level)
    requires EntryStart(v + done, h.level) != EntryStart(w, h.level)
    ensures Expected(mem, h.level, t, w, v, done, b, device) == Expected(mem, h.level, t, w, v, done + f, b, device)
    ensures EntryApart(w, h.level, v, done + f) ==> EntryApart(w, h.level, v, done)
  {
    hide Into, EntrySize, Span, Index, Survives, EntryStart, EntryApart;
    RangeInEntry(h, v + done, f, w);
    EntryFacts(h, w);
    forall x: nat | EntryStart(w, h.level) <= x < EntryStart(w, h.level) + EntrySize(h.level)
      ensures InRange(x, v, done) <==> InRange(x, v, done + f)
    {
      assert !InRange(x, v + done, f);
    }
    SurvivesClip(mem, h.level, t, w, v, done, v, done + f);
    SameApartBelow(w, h.level, v, done, v, done + f);
    assert InRange(w, v, done) <==> InRange(w, v, done + f);
  }

  function WriteEntry(mem: Memory, t: int, i: nat, d: Desc): Memory
    requires t in mem && i < |mem[t]|
  {
    mem[t := mem[t][i := d]]
  }

  /** Writing a descriptor keeps the tables rooted if it points home. */
  lemma WriteRooted(mem: Memory, home: map<int, Home>, t: int, i: nat, d: Desc)
    requires Rooted(mem, home) && t in mem && i < ENTRIES
    requires home[t].level < 4 ==> PointsHome(home, d, ChildHome(home[t], i))
    ensures |mem[t]| == ENTRIES && Rooted(WriteEntry(mem, t, i, d), home)
  {
    hide ChildHome, ProperHome, PointsHome;
    var mem' := WriteEntry(mem, t, i, d);
    forall x | x in mem'
      ensures EntriesRooted(mem', home, x)
    {
      assert EntriesRooted(mem, home, x);
      assert EntriesRooted(mem, home, t);
    }
  }

  /** Writing one entry changes no other. */
  lemma WriteElsewhere(mem: Memory, home: map<int, Home>, t: int, v: nat, d: Desc, w: nat)
    requires Rooted(mem, home) && t in mem
    ensures var mem' := WriteEntry(mem, t, Index(v, home[t].level), d);
            Entry(mem', home[t].level, t, w) ==
              if Index(w, home[t].level) == Index(v, home[t].level) then d else Entry(mem, home[t].level, t, w)
  {
    hide Index;
  }

  /** What a step must show of one page. */
  ghost predicate PageDone(mem: Memory, mem': Memory, h: Home, t: int, w: nat, v: nat, n: nat, b: int, device: bool)
  {
    Walk(mem', h.level, t, w) == Expected(mem, h.level, t, w, v, n, b, device)
  }

  /** The next part of the range: it starts on an entry boundary unless it is the first,
      and stays in its entry. */
  ghost predicate NextPart(h: Home, v: nat, n: nat, done: nat, f: nat)
  {
    && ProperHome(h) && Covers(h, v + done) && 0 < f && done + f <= n
    && Into(v + done, h.level) + f <= EntrySize(h.level)
    && (done == 0 || Into(v + done, h.level) == 0)
  }

  /** What a step must show of its own entry. */
  ghost predicate PartDone(s: Strategy, mem: Memory, mem': Memory, h: Home, t: int,
                           v: nat, done: nat, f: nat, b: int, device: bool)
  {
    if Faithful(s, h.level, v + done, f, b + done) then
      forall w: nat | Covers(h, w) && EntryStart(w, h.level) == EntryStart(v + done, h.level) ::
        PageDone(mem, mem', h, t, w, v, done + f, b, device)
    else Misled(mem', h, t, v + done, f, b + done)
  }

  ghost predicate OtherEntriesKept(mem: Memory, mem': Memory, h: Home, t: int, v: nat)
  {
    forall w: nat | Covers(h, w) && Index(w, h.level) != Index(v, h.level) ::
      Entry(mem', h.level, t, w) == Entry(mem, h.level, t, w)
  }

  /** A step that changes only v + done's entry of t, and tables below it, keeps what is
      done and leaves the rest; its own pages are shown by the caller. */
  lemma StepFilled(s: Strategy, mem0: Memory, home0: map<int, Home>, mem: Memory, home: map<int, Home>,
                   mem': Memory, home': map<int, Home>, t: int, v: nat, n: nat, done: nat, f: nat,
                   b: int, device: bool)
    requires Rooted(mem, home) && t in home0 && t in mem && home[t] == home0[t]
    requires NextPart(home0[t], v, n, done, f)
    requires Filled(s, mem0, home0, mem, home, t, v, done, b, device)
    requires Extends(home, home') && OnlyTouched(mem, home, mem', t, v + done, f)
    requires OtherEntriesKept(mem, mem', home[t], t, v + done)
    requires PartDone(s, mem0, mem', home[t], t, v, done, f, b, device)
    ensures Filled(s, mem0, home0, mem', home', t, v, done + f, b, device)
  {
    hide Into, EntrySize, Span, Index, Walk, Survives, EntryStart, Expected, EntryApart, Entry, Touches, Faithful,
      LeadsOff;
    var h, l := home[t], home[t].level;
    TouchedMore(mem0, home0, mem, home, mem', t, v, done, f);
    forall w: nat | Covers(h, w) && EntryApart(w, l, v, done + f)
      ensures Entry(mem', l, t, w) == Entry(mem0, l, t, w)
    {
      ApartFromPart(h, v, done, f, w);
      OtherExpected(mem0, h, t, v, done, f, w, b, device);
      SameEntry(h, v + done, w);
    }
    FaithfulParts(s, l, v, done + f, b, done, f);
    if Faithful(s, l, v, done + f, b) {
      forall w: nat | Covers(h, w)
        ensures Walk(mem', l, t, w) == Expected(mem0, l, t, w, v, done + f, b, device)
      {
        if EntryStart(w, l) == EntryStart(v + done, l) {
          assert PageDone(mem0, mem', h, t, w, v, done + f, b, device);
        } else {
          SameEntry(h, v + done, w);
          OtherEntryWalks(mem, home, mem', t, v + done, f, w);
          OtherExpected(mem0, h, t, v, done, f, w, b, device);
        }
      }
    } else {
      StepMisled(s, mem0, home0, mem, home, mem', t, v, n, done, f, b, device);
    }
  }

  /** Once a page leads to other memory, the parts that follow do not mend it. */
  lemma StepMisled(s: Strategy, mem0: Memory, home0: map<int, Home>, mem: Memory, home: map<int, Home>,
                   mem': Memory, t: int, v: nat, n: nat, done: nat, f: nat, b: int, device: bool)
    requires Rooted(mem, home) && t in home0 && t in mem && home[t] == home0[t]
    requires NextPart(home0[t], v, n, done, f)
    requires Filled(s, mem0, home0, mem, home, t, v, done, b, device)
    requires OnlyTouched(mem, home, mem', t, v + done, f)
    requires OtherEntriesKept(mem, mem', home[t], t, v + done)
    requires PartDone(s, mem0, mem', home[t], t, v, done, f, b, device)
    requires !Faithful(s, home[t].level, v, done, b) || !Faithful(s, home[t].level, v + done, f, b + done)
    ensures Misled(mem', home[t], t, v, done + f, b)
  {
    hide Into, EntrySize, Span, Index, Walk, Survives, EntryStart, Expected, EntryApart, Entry, Touches, Faithful,
      Kept, OnlyTouched;
    var h, l := home[t], home[t].level;
    if !Faithful(s, l, v, done, b) {
      var w: nat :| Covers(h, w) && InRange(w, v, done) && LeadsOff(mem, l, t, w, b + (w - v));
      EntryFacts(h, w);
      EntryFacts(h, v + done);
      StartIs(v + done, l);
      SameEntry(h, v + done, w);
      OtherEntryWalks(mem, home, mem', t, v + done, f, w);
      assert InRange(w, v, done + f) && LeadsOff(mem', l, t, w, b + (w - v));
    } else {
      var w: nat :| Covers(h, w) && InRange(w, v + done, f) && LeadsOff(mem', l, t, w, b + done + (w - (v + done)));
      assert InRange(w, v, done + f) && LeadsOff(mem', l, t, w, b + (w - v));
    }
  }

  /** An entry apart from the range is not the entry of its last part. */
  lemma ApartFromPart(h: Home, v: nat, done: nat, f: nat, w: nat)
    requires ProperHome(h) && Covers(h, v + done) && Covers(h, w) && f > 0 && EntryApart(w, h.level, v, done + f)
    ensures EntryStart(w, h.level) != EntryStart(v + done, h.level)
  {
    hide Into, EntrySize, Span, Index;
    EntryFacts(h, v + done);
    EntryFacts(h, w);
  }

  lemma TouchedMore(mem0: Memory, home0: map<int, Home>, mem: Memory, home: map<int, Home>, mem': Memory,
                    t: int, v: nat, done: nat, f: nat)
    requires Rooted(mem, home) && t in home0 && Extends(home0, home)
    requires OnlyTouched(mem0, home0, mem, t, v, done) && OnlyTouched(mem, home, mem', t, v + done, f)
    ensures OnlyTouched(mem0, home0, mem', t, v, done + f)
  {
    forall x | x in mem0 && x in home0
      ensures x in mem' && (mem'[x] == mem0[x] || x == t || Below(home0, t, x, v, done + f))
    {
      assert x in mem && x in home;
    }
  }

  /** A block or page written at the next entry: where masking moves the address of its
      memory, the entry's first page leads to other memory. */
  lemma LeafStep(s: Strategy, mem0: Memory, home0: map<int, Home>, mem: Memory, home: map<int, Home>,
                 t: int, v: nat, n: nat, done: nat, b: int, device: bool, p: int)
    requires Rooted(mem, home) && t in home0 && t in mem && home[t] == home0[t]
    requires NextPart(home0[t], v, n, done, EntrySize(home0[t].level)) && home0[t].level >= 2
    requires s.Granular? ==> home0[t].level == 4
    requires Filled(s, mem0, home0, mem, home, t, v, done, b, device)
    requires p == b + done - (b + done) % EntrySize(home0[t].level)
    ensures |mem[t]| == ENTRIES
    ensures var mem' := WriteEntry(mem, t, Index(v + done, home0[t].level), Leaf(p, device));
            Rooted(mem', home)
            && Filled(s, mem0, home0, mem', home, t, v, done + EntrySize(home0[t].level), b, device)
  {
    hide Index, Survives, Rooted, Covers, Span, Congruent, Walk, Expected, Filled;
    RootedKeys(mem, home);
    var l, i := home[t].level, Index(v + done, home[t].level);
    var f := EntrySize(l);
    WriteRooted(mem, home, t, i, Leaf(p, device));
    var mem' := WriteEntry(mem, t, i, Leaf(p, device));
    forall w: nat
      ensures Entry(mem', l, t, w) == if Index(w, l) == i then Leaf(p, device) else Entry(mem, l, t, w)
    {
      WriteElsewhere(mem, home, t, v + done, Leaf(p, device), w);
    }
    PartAligned(home[t], v, done);
    BlockCongruentIff(l, v + done, b + done);
    LeafWalk(mem', l, t, v + done, p, device);
    if Faithful(s, l, v + done, f, b + done) {
      forall w: nat | Covers(home[t], w) && EntryStart(w, l) == EntryStart(v + done, l)
        ensures PageDone(mem0, mem', home[t], t, w, v, done + f, b, device)
      {
        SameEntry(home[t], v + done, w);
        EntryFacts(home[t], w);
        StartIs(w, l);
        StartIs(v + done, l);
        LeafWalk(mem', l, t, w, p, device);
        assert Expected(mem0, l, t, w, v, done + f, b, device) == Some(Out(b + (w - v), device)) by {
          InEntry(mem0, l, t, w, v, done + f, b, device);
        }
      }
    } else {
      assert InRange(v + done, v + done, f) && LeadsOff(mem', l, t, v + done, b + done);
    }
    StepFilled(s, mem0, home0, mem, home, mem', home, t, v, n, done, f, b, device);
  }

  lemma InEntry(mem: Memory, l: nat, t: int, w: nat, v: nat, n: nat, b: int, device: bool)
    requires v <= w < v + n
    ensures Expected(mem, l, t, w, v, n, b, device) == Some(Out(b + (w - v), device))
  {
  }

  lemma LeafWalk(mem: Memory, l: nat, t: int, w: nat, p: int, device: bool)
    requires Entry(mem, l, t, w) == Leaf(p, device) && l != 1
    ensures Walk(mem, l, t, w) == Some(Out(p + Into(w, l), device))
  {
  }

  /** A part that fills an entry starts with it. */
  lemma PartAligned(h: Home, v: nat, done: nat)
    requires Into(v + done, h.level) + EntrySize(h.level) <= EntrySize(h.level)
    ensures Into(v + done, h.level) == 0
  {
  }

  /** A lower table filled for the next entry, and its descriptor written there. */
  lemma TableStep(s: Strategy, mem0: Memory, home0: map<int, Home>, mem: Memory, home: map<int, Home>,
                  low: Memory, home': map<int, Home>, t: int, c: int, v: nat, n: nat, done: nat, f: nat,
                  b: int, device: bool)
    requires Rooted(mem0, home0) && Rooted(mem, home) && Rooted(low, home')
    requires t in mem0 && t in mem && home[t] == home0[t]
    requires NextPart(home0[t], v, n, done, f) && home0[t].level < 4
    requires s.Compact? ==> f < EntrySize(home0[t].level)
    requires Filled(s, mem0, home0, mem, home, t, v, done, b, device)
    requires Descended(s, mem, home, low, home', t, c, v + done, f, b + done, device)
    ensures t in low && |low[t]| == ENTRIES
    ensures var mem' := WriteEntry(low, t, Index(v + done, home0[t].level), Table(c));
            Rooted(mem', home') && Filled(s, mem0, home0, mem', home', t, v, done + f, b, device)
  {
    hide Index, Survives, Walk, Rooted, Covers, Span, Into, EntryStart, EntrySize, Expected, EntryApart, ProperHome,
      Entry, Touches, Faithful, Misled, LowerMapped;
    RootedKeys(mem, home);
    RootedKeys(mem0, home0);
    var l, i := home[t].level, Index(v + done, home[t].level);
    assert low[t] == mem[t];
    WriteRooted(low, home', t, i, Table(c));
    var mem' := WriteEntry(low, t, i, Table(c));
    forall w: nat
      ensures Entry(mem', l, t, w) == if Index(w, l) == i then Table(c) else Entry(mem, l, t, w)
    {
      WriteElsewhere(low, home', t, v + done, Table(c), w);
      SameTable(mem, low, l, t, w);
    }
    FaithfulBelow(s, l, v + done, f, b + done);
    if Faithful(s, l, v + done, f, b + done) {
      forall w: nat | Covers(home[t], w) && EntryStart(w, l) == EntryStart(v + done, l)
        ensures PageDone(mem0, mem', home[t], t, w, v, done + f, b, device)
      {
        TablePage(mem0, home0, mem, home, low, home', t, c, v, n, done, f, b, device, w);
      }
    } else {
      TableMisled(low, home', t, c, home[t], v + done, f, b + done);
    }
    StepFilled(s, mem0, home0, mem, home, mem', home', t, v, n, done, f, b, device);
  }

  lemma SameTable(mem: Memory, mem': Memory, l: nat, t: int, w: nat)
    requires t in mem && t in mem' && mem'[t] == mem[t]
    ensures Entry(mem', l, t, w) == Entry(mem, l, t, w)
  {
  }

  /** A page that leads to other memory from a lower table does so from the upper one. */
  lemma TableMisled(low: Memory, home: map<int, Home>, t: int, c: int, h: Home, v: nat, f: nat, b: int)
    requires Rooted(low, home) && t in low && c in low && home[t] == h && h.level < 4 && Covers(h, v)
    requires home[c] == ChildHome(h, Index(v, h.level)) && Misled(low, home[c], c, v, f, b) && |low[t]| == ENTRIES
    ensures Misled(WriteEntry(low, t, Index(v, h.level), Table(c)), h, t, v, f, b)
  {
    hide Walk, Index, Rooted, Into, EntryStart, EntrySize, Span;
    RootedKeys(low, home);
    var l, mem' := h.level, WriteEntry(low, t, Index(v, h.level), Table(c));
    var w: nat :| Covers(home[c], w) && InRange(w, v, f) && LeadsOff(low, l + 1, c, w, b + (w - v));
    ChildCovers(h, v, w);
    WriteElsewhere(low, home, t, v, Table(c), w);
    LowerWalk(low, home, mem', t, c, w, l);
    TableWalk(mem', l, t, c, w);
    assert LeadsOff(mem', l, t, w, b + (w - v));
  }

  lemma TableWalk(mem: Memory, l: nat, t: int, c: int, w: nat)
    requires Entry(mem, l, t, w) == Table(c) && l < 4
    ensures Walk(mem, l, t, w) == Walk(mem, l + 1, c, w)
  {
  }

  /** The pages of a lower table are those of one entry. */
  lemma ChildCovers(h: Home, v: nat, w: nat)
    requires ProperHome(h) && h.level < 4 && Covers(h, v) && Covers(ChildHome(h, Index(v, h.level)), w)
    ensures Covers(h, w) && EntryStart(w, h.level) == EntryStart(v, h.level) && Index(w, h.level) == Index(v, h.level)
  {
    hide Index, Into;
    EntryFacts(h, v);
    EntryFacts(h, w);
    SameEntry(h, v, w);
  }

  /** One page of the entry for which a lower table was filled. */
  lemma TablePage(mem0: Memory, home0: map<int, Home>, mem: Memory, home: map<int, Home>,
                  low: Memory, home': map<int, Home>, t: int, c: int, v: nat, n: nat, done: nat, f: nat,
                  b: int, device: bool, w: nat)
    requires Rooted(mem0, home0) && Rooted(mem, home) && Rooted(low, home')
    requires t in mem0 && t in mem && home[t] == home0[t]
    requires NextPart(home0[t], v, n, done, f) && home0[t].level < 4
    requires Kept(mem0, home0, mem, home, t, v, done)
    requires t in low && |low[t]| == ENTRIES && low[t] == mem[t] && c in low && c in home'
    requires Extends(home, home') && home'[c] == ChildHome(home[t], Index(v + done, home[t].level))
    requires var d := Entry(mem, home[t].level, t, v + done);
             (d.Table? ==> c == d.addr) && LowerMapped(mem, low, home'[c], d, c, v + done, f, b + done, device)
    requires Covers(home[t], w) && EntryStart(w, home[t].level) == EntryStart(v + done, home[t].level)
    ensures PageDone(mem0, WriteEntry(low, t, Index(v + done, home[t].level), Table(c)), home[t], t, w,
                     v, done + f, b, device)
  {
    hide Survives, Index, Rooted, Covers, Span, Into, EntryStart, EntrySize, EntryApart, ProperHome, Kept;
    RootedKeys(mem, home);
    var l, h := home[t].level, home[t];
    var d, i := Entry(mem, l, t, v + done), Index(v + done, l);
    var mem' := WriteEntry(low, t, i, Table(c));
    SameEntry(h, v + done, w);
    EntryFacts(h, w);
    WriteElsewhere(low, home', t, v + done, Table(c), w);
    LowerWalk(low, home', mem', t, c, w, l);
    assert Walk(mem', l, t, w) == Walk(low, l + 1, c, w);
    InPart(h, v, done, f, w);
    if !InRange(w, v + done, f) {
      LowerSurvives(mem0, home0, mem, home, t, v, n, done, f, w);
    }
  }

  /** Writing an upper table changes no walk from a lower one. */
  lemma LowerWalk(low: Memory, home: map<int, Home>, mem': Memory, t: int, c: int, w: nat, l: nat)
    requires Rooted(low, home) && t in low && c in low && home[t].level == l && home[c].level == l + 1
    requires Covers(home[c], w)
    requires mem'.Keys == low.Keys && forall x | x in low && x != t :: mem'[x] == low[x]
    ensures Walk(mem', l + 1, c, w) == Walk(low, l + 1, c, w)
  {
    hide Walk, Survives, Rooted, Covers;
    WalkFrame(low, mem', home, c, w, 0, 0);
  }

  /** In the entry of the next part, only that part is in the range so far. */
  lemma InPart(h: Home, v: nat, done: nat, f: nat, w: nat)
    requires ProperHome(h) && Covers(h, v + done) && Covers(h, w)
    requires EntryStart(w, h.level) == EntryStart(v + done, h.level)
    requires f > 0 && Into(v + done, h.level) + f <= EntrySize(h.level) && (done == 0 || Into(v + done, h.level) == 0)
    ensures SameApart(w, h.level, v, done + f, v + done, f)
    ensures InRange(w, v, done + f) <==> InRange(w, v + done, f)
    ensures !EntryApart(w, h.level, v, done + f) && EntryApart(w, h.level, v, done)
  {
    hide Into, EntrySize, Span, EntryStart, ProperHome;
    EntryFacts(h, w);
    EntryFacts(h, v + done);
    StartIs(v + done, h.level);
  }

  /** What survives of a page outside the range, from the tables at the start and from
      those so far. */
  lemma LowerSurvives(mem0: Memory, home0: map<int, Home>, mem: Memory, home: map<int, Home>,
                      t: int, v: nat, n: nat, done: nat, f: nat, w: nat)
    requires Rooted(mem0, home0) && Rooted(mem, home) && t in mem0 && t in mem && home[t] == home0[t]
    requires NextPart(home0[t], v, n, done, f) && home0[t].level < 4
    requires Kept(mem0, home0, mem, home, t, v, done)
    requires Covers(home[t], w) && EntryStart(w, home[t].level) == EntryStart(v + done, home[t].level)
    ensures Entry(mem, home[t].level, t, v + done) == Entry(mem0, home[t].level, t, w)
    ensures var l, d := home[t].level, Entry(mem0, home[t].level, t, w);
            Survives(mem0, l, t, w, v, done + f) == if d.Table? then Survives(mem, l + 1, d.addr, w, v + done,
                     f) else None
  {
    hide Index, Rooted, Walk, Span, Into, EntryStart, EntrySize, EntryApart, ProperHome, Survives, SameAround,
      SameApart, Covers;
    RootedKeys(mem, home);
    RootedKeys(mem0, home0);
    var l, h := home[t].level, home[t];
    InPart(h, v, done, f, w);
    SameEntry(h, v + done, w);
    EntryByIndex(mem, l, t, v + done, w);
    HomeLevel(h);
    var d := Entry(mem0, l, t, w);
    SurvivesBelow(mem0, l, t, w, v, done + f);
    if d.Table? {
      EntryLeads(mem0, home0, t, w);
      SameApartBelow(w, l, v, done + f, v + done, f);
      SurvivesClip(mem0, l + 1, d.addr, w, v, done + f, v + done, f);
      LowerUnchanged(mem0, home0, mem, t, v, done, w);
      WalkFrame(mem0, mem, home0, d.addr, w, v + done, f);
    }
  }

  lemma SurvivesBelow(mem: Memory, l: nat, t: int, w: nat, v: nat, n: nat)
    requires !EntryApart(w, l, v, n) && l < 4
    ensures var d := Entry(mem, l, t, w);
            Survives(mem, l, t, w, v, n) == if d.Table? then Survives(mem, l + 1, d.addr, w, v, n) else None
  {
  }

  lemma RootedKeys(mem: Memory, home: map<int, Home>)
    requires Rooted(mem, home)
    ensures mem.Keys == home.Keys
    ensures forall t | t in mem :: |mem[t]| == ENTRIES && ProperHome(home[t])
  {
  }

  lemma EntryByIndex(mem: Memory, l: nat, t: int, v: nat, w: nat)
    requires Index(v, l) == Index(w, l)
    ensures Entry(mem, l, t, v) == Entry(mem, l, t, w)
  {
  }

  /** The tables below t that serve a page whose entry is not done yet are unchanged. */
  lemma LowerUnchanged(mem0: Memory, home0: map<int, Home>, mem: Memory, t: int, v: nat, done: nat, w: nat)
    requires Rooted(mem0, home0) && t in mem0 && Covers(home0[t], w) && OnlyTouched(mem0, home0, mem, t, v, done)
    requires EntryApart(w, home0[t].level, v, done)
    ensures SameAround(mem0, mem, home0, home0[t].root, home0[t].level + 1, w)
  {
    hide Index, Into, EntrySize, EntryStart, Span, EntriesRooted, ProperHome;
    var l := home0[t].level;
    forall x |
      x in mem0 && x in home0 && home0[x].root == home0[t].root && home0[x].level >= l + 1 && Covers(home0[x], w)
      ensures x in mem && mem[x] == mem0[x]
    {
      assert ProperHome(home0[t]) && ProperHome(home0[x]);
      HomeLevel(home0[t]);
      LowerInside(home0[x], l, w);
    }
  }

  lemma HomeLevel(h: Home)
    requires ProperHome(h)
    ensures 1 <= h.level <= 4
  {
  }

  // ----------------------------------------------------------------- fresh tables

  /** A page of zeros: 512 invalid descriptors. */
  function ZeroTable(): (t: seq<Desc>)
    ensures |t| == ENTRIES && forall i | 0 <= i < ENTRIES :: t[i].Invalid?
  {
    seq(ENTRIES, _ => Invalid)
  }

  /** A zeroed table serves no page yet. */
  lemma ZeroWalks(mem: Memory, l: nat, c: int, w: nat, v: nat, n: nat)
    requires c in mem && mem[c] == ZeroTable()
    ensures Walk(mem, l, c, w) == None && Survives(mem, l, c, w, v, n) == None
  {
    hide Index, Into;
    assert Entry(mem, l, c, w).Invalid?;
  }

  lemma ZeroRooted(mem: Memory, home: map<int, Home>, t: int, v: nat, c: int)
    requires Rooted(mem, home) && t in mem && home[t].level < 4 && c !in mem
    requires ProperHome(ChildHome(home[t], Index(v, home[t].level)))
    ensures var h := ChildHome(home[t], Index(v, home[t].level));
            Rooted(mem[c := ZeroTable()], home[c := h])
  {
    hide Index, EntryStart, Into, Span;
    RootedKeys(mem, home);
    var h := ChildHome(home[t], Index(v, home[t].level));
    var mem', home' := mem[c := ZeroTable()], home[c := h];
    forall x | x in mem'
      ensures |mem'[x]| == ENTRIES && ProperHome(home'[x]) && EntriesRooted(mem', home', x)
    {
      if x != c {
        assert EntriesRooted(mem, home, x);
        forall i | 0 <= i < ENTRIES && home[x].level < 4
          ensures PointsHome(home', mem'[x][i], ChildHome(home'[x], i))
        {
          assert PointsHome(home, mem[x][i], ChildHome(home[x], i));
        }
      }
    }
  }

  /** The tables with the one that will serve v's entry of t: the one there is, or a new
      one of zeros. */
  ghost predicate Supplied(mem: Memory, home: map<int, Home>, low: Memory, lowHome: map<int, Home>,
                           t: int, c: int, v: nat)
    requires t in home
  {
    var h, d := ChildHome(home[t], Index(v, home[t].level)), Entry(mem, home[t].level, t, v);
    && c in low && c in lowHome && lowHome[c] == h
    && if d.Table? then c == d.addr && low == mem && lowHome == home
       else c !in mem && low == mem[c := ZeroTable()] && lowHome == home[c := h]
  }

  /** From a filled lower table to the part of the upper table it serves. */
  lemma DescendedFrom(s: Strategy, mem: Memory, home: map<int, Home>, low: Memory, lowHome: map<int, Home>,
                      mem': Memory, home': map<int, Home>, t: int, c: int, v: nat, f: nat, b: int, device: bool)
    requires Rooted(mem, home) && t in mem && home[t].level < 4 && Covers(home[t], v) && f > 0
    requires Supplied(mem, home, low, lowHome, t, c, v) && c in mem'
    requires Filled(s, low, lowHome, mem', home', c, v, f, b, device)
    ensures Descended(s, mem, home, mem', home', t, c, v, f, b, device)
  {
    hide Index, EntryStart, Into, Span, Survives, Walk, EntrySize, Entry, Rooted, Faithful, Misled;
    RootedKeys(mem, home);
    var h, d := ChildHome(home[t], Index(v, home[t].level)), Entry(mem, home[t].level, t, v);
    EntryFacts(home[t], v);
    CoversTouches(h, v, f);
    forall x | x in mem && x in home
      ensures x in mem' && (mem'[x] == mem[x] || Below(home, t, x, v, f))
    {
      assert x in low && x in lowHome && low[x] == mem[x] && lowHome[x] == home[x];
    }
    if Faithful(s, h.level, v, f, b) && !d.Table? {
      forall w: nat | Covers(h, w)
        ensures Survives(low, h.level, c, w, v, f) == None
      {
        ZeroWalks(low, h.level, c, w, v, f);
      }
    }
  }

  lemma CoversTouches(h: Home, v: nat, f: nat)
    requires Covers(h, v) && f > 0
    ensures Touches(h, v, f)
  {
  }

  /** Before anything is filled. */
  lemma NoneFilled(s: Strategy, mem: Memory, home: map<int, Home>, t: int, v: nat, b: int, device: bool)
    requires t in home
    ensures Filled(s, mem, home, mem, home, t, v, 0, b, device)
  {
    hide Index, Into, Walk;
    assert Faithful(s, home[t].level, v, 0, b) by {
      assert forall k :: !HoldsEntry(k, v, 0);
    }
  }

  // ------------------------------------------------------------------------ blocks

  /** The walk to w goes through a block that has pages of the range. */
  predicate UnderBlock(mem: Memory, l: nat, t: int, w: nat, v: nat, n: nat)
    decreases 4 - l
  {
    && !EntryApart(w, l, v, n)
    && match Entry(mem, l, t, w)
       case Invalid => false
       case Table(a) => l < 4 && UnderBlock(mem, l + 1, a, w, v, n)
       case Leaf(_, _) => l != 1
  }

  /** A page outside the range leads where it did exactly when no block above it has pages
      of the range: the code replaces such a block by a table with nothing else in it. */
  lemma {:induction false} SurvivesIff(mem: Memory, l: nat, t: int, w: nat, v: nat, n: nat)
    ensures Survives(mem, l, t, w, v, n) == Walk(mem, l, t, w) <==> !UnderBlock(mem, l, t, w, v, n)
    decreases 4 - l
  {
    hide Index, Into, EntryApart;
    match Entry(mem, l, t, w)
    case Invalid =>
    case Table(a) => if l < 4 { SurvivesIff(mem, l + 1, a, w, v, n); }
    case Leaf(_, _) =>
  }

  /** A direct map is always congruent. */
  lemma DirectCongruent(l: nat, v: nat, n: nat)
    ensures Congruent(l, v, n, v)
  {
    forall k | l <= k && 2 <= k <= 3 && HoldsEntry(k, v, n)
      ensures (v - v) % EntrySize(k) == 0
    {
      DivisionIs(EntrySize(k), 0, 0);
    }
  }
}
