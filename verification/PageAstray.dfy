/** The two fills as they are written, on every range: what they leave where the cut at an
    entry boundary goes wrong. */
module PageAstray {
  import opened Rings
  import opened PageWalk
  import opened PageFill

  // ----------------------------------------------------------------------- frames

  /** The second table serves pages of the first one, from the same level or below. */
  predicate Inside(h: Home, k: Home)
  {
    k.root == h.root && k.level >= h.level && h.first <= k.first < h.first + Span(h.level)
  }

  /** Of the tables there were, only those inside h may differ. */
  ghost predicate OnlyInside(mem: Memory, home: map<int, Home>, mem': Memory, h: Home)
  {
    forall x | x in mem && x in home :: x in mem' && (mem'[x] == mem[x] || Inside(h, home[x]))
  }

  /** The page of table h that has v's entry: v itself, if the table serves it. */
  function Wrap(h: Home, v: nat): nat
  {
    h.first + Index(v, h.level) * EntrySize(h.level)
  }

  lemma Wrapped(h: Home, v: nat)
    requires ProperHome(h)
    ensures Covers(h, Wrap(h, v)) && Index(Wrap(h, v), h.level) == Index(v, h.level)
  {
    var e, i := EntrySize(h.level), Index(v, h.level);
    TimesFits(e, i, 512);
    var u := Wrap(h, v);
    IndexIs(e, h.first, u);
    var k := h.first / (512 * e);
    assert h.first == (512 * e) * k;
    assert u == e * (512 * k + i) + 0;
    DivisionIs(e, 512 * k + i, 0);
    DivisionIs(512, k, i);
  }

  /** The table for an entry lies inside the table, whatever page led to the entry. */
  lemma ChildInside(h: Home, v: nat)
    requires ProperHome(h) && h.level < 4
    ensures var c := ChildHome(h, Index(v, h.level)); ProperHome(c) && Inside(h, c)
    ensures forall k | Inside(ChildHome(h, Index(v, h.level)), k) :: Inside(h, k) && k != h
  {
    hide Index;
    Wrapped(h, v);
    EntryFacts(h, Wrap(h, v));
  }

  /** Tables inside the table for one entry serve no page of another. */
  lemma InsideApart(h: Home, v: nat, w: nat, k: Home)
    requires ProperHome(h) && h.level < 4 && Covers(h, w) && Index(w, h.level) != Index(v, h.level)
    requires ProperHome(k) && Inside(ChildHome(h, Index(v, h.level)), k)
    ensures !Covers(k, w)
  {
    hide Index, Into;
    var u := Wrap(h, v);
    Wrapped(h, v);
    EntryFacts(h, u);
    EntryFacts(h, w);
    SameEntry(h, u, w);
    if Covers(k, w) {
      ApartLower(h, v, w, k);
    }
  }

  lemma ApartLower(h: Home, v: nat, w: nat, k: Home)
    requires ProperHome(h) && h.level < 4 && Covers(h, w)
    requires ProperHome(k) && Inside(ChildHome(h, Index(v, h.level)), k) && Covers(k, w)
    ensures EntryStart(w, h.level) <= k.first && k.first + Span(k.level) <= EntryStart(w, h.level) + EntrySize(h.level)
  {
    LowerInside(k, h.level, w);
  }

  /** A descriptor that is a table leads to the table for the entry. */
  lemma EntryPoints(mem: Memory, home: map<int, Home>, t: int, v: nat)
    requires Rooted(mem, home) && t in mem && home[t].level < 4
    ensures var d := Entry(mem, home[t].level, t, v);
            d.Table? ==> d.addr in mem && d.addr in home
                         && home[d.addr] == ChildHome(home[t], Index(v, home[t].level))
  {
    hide Index;
    assert EntriesRooted(mem, home, t);
    assert PointsHome(home, mem[t][Index(v, home[t].level)], ChildHome(home[t], Index(v, home[t].level)));
  }

  // ---------------------------------------------------------------------- compact

  /** A page of the range leads nowhere. */
  ghost predicate Missed(mem: Memory, h: Home, t: int, v: nat, n: nat)
  {
    exists w: nat :: Covers(h, w) && InRange(w, v, n) && Walk(mem, h.level, t, w) == None
  }

  /** The range lies in the table. */
  predicate InTable(h: Home, v: nat, n: nat)
  {
    Covers(h, v) && v + n <= h.first + Span(h.level)
  }

  /** After a wrong compact cut the fill either stops short of a page of the next entry, or
      makes no progress for ever. */
  lemma WrongCut(l: nat, v: nat, n: nat)
    requires n > 0 && 1 <= l <= 4 && !RightCut(Compact, l, v, n)
    ensures var f := Chunk(Compact, l, v, n);
            || f == 0
            || (f == n && Into(v, l) + n > EntrySize(l))
            || (f < n && Chunk(Compact, l, v + f, n - f) == 0)
  {
    var e, f, r := EntrySize(l), Chunk(Compact, l, v, n), Into(v, l);
    CompactCut(l, v, n);
    assert v == e * (v / e) + r && n == e * (n / e) + f;
    if 0 < f < n {
      assert n - f == e * (n / e) + 0;
      DivisionIs(e, n / e, 0);
      if r + f < e {
        assert v + f == e * (v / e) + (r + f);
        DivisionIs(e, v / e, r + f);
      } else {
        assert r + f != e;
        assert v + f == e * (v / e + 1) + (r + f - e);
        DivisionIs(e, v / e + 1, r + f - e);
      }
    }
  }

  /** A range that leaves its entry has a page in another entry, which is as it was. */
  lemma BeyondMissed(mem: Memory, h: Home, t: int, v: nat, n: nat)
    requires ProperHome(h) && InTable(h, v, n) && Into(v, h.level) + n > EntrySize(h.level) && Into(v, h.level) > 0
    requires forall w: nat | Index(w, h.level) != Index(v, h.level) :: Entry(mem, h.level, t, w).Invalid?
    ensures Missed(mem, h, t, v, n)
  {
    hide Index, Into, EntrySize, Entry;
    EntryFacts(h, v);
    StartIs(v, h.level);
    var w: nat := EntryStart(v, h.level) + EntrySize(h.level);
    EntryFacts(h, w);
    SameEntry(h, v, w);
    assert Entry(mem, h.level, t, w).Invalid?;
    assert Walk(mem, h.level, t, w) == None && InRange(w, v, n);
  }

  /** A page that leads nowhere from the lower table leads nowhere from the upper one. */
  lemma TableMissed(low: Memory, home: map<int, Home>, t: int, c: int, h: Home, v: nat, n: nat)
    requires Rooted(low, home) && t in low && c in low && home[t] == h && h.level < 4 && Covers(h, v)
    requires home[c] == ChildHome(h, Index(v, h.level)) && Missed(low, home[c], c, v, n) && |low[t]| == ENTRIES
    ensures Missed(WriteEntry(low, t, Index(v, h.level), Table(c)), h, t, v, n)
  {
    hide Walk, Index, Rooted, Into, EntryStart, EntrySize, Span;
    RootedKeys(low, home);
    var l, mem' := h.level, WriteEntry(low, t, Index(v, h.level), Table(c));
    var w: nat :| Covers(home[c], w) && InRange(w, v, n) && Walk(low, l + 1, c, w) == None;
    ChildCovers(h, v, w);
    WriteElsewhere(low, home, t, v, Table(c), w);
    LowerWalk(low, home, mem', t, c, w, l);
    TableWalk(mem', l, t, c, w);
  }

  /** A lower table has been filled for v's entry of t, whatever the range. */
  ghost predicate Lowered(s: Strategy, mem: Memory, home: map<int, Home>, low: Memory, home': map<int, Home>,
                          t: int, c: int, v: nat, n: nat, b: int, device: bool)
    requires t in home
  {
    var h, l, m := home[t], home[t].level, Pages(s, n);
    var k, d := ChildHome(h, Index(v, l)), Entry(mem, l, t, v);
    && Extends(home, home') && OnlyInside(mem, home, low, k)
    && c in low && c in home' && home'[c] == k && (d.Table? ==> c == d.addr)
    && (Covers(h, v) && m > 0 && Into(v, l) + m <= EntrySize(l) && Fits(s, l + 1, v, n) ==>
          Descended(s, mem, home, low, home', t, c, v, m, b, device))
    && (s.Compact? && Covers(h, v) && Into(v, l) + m <= EntrySize(l) && !d.Table? && !Fits(s, l + 1, v, n) ==>
          Missed(low, k, c, v, n))
    && (s.Granular? ==>
          && (d.Table? ==> Raises(mem, low, k, c, v, b - v))
          && (Covers(h, v) && Leaves(v, m) ==> LedHigh(low, k, c, v, b - v)))
  }

  /** What a fill leaves, whatever the range. */
  ghost predicate Written(s: Strategy, mem: Memory, home: map<int, Home>, mem': Memory, home': map<int, Home>,
                          t: int, v: nat, n: nat, b: int, device: bool)
    requires t in home && t in mem
  {
    var h, m := home[t], Pages(s, n);
    && t in mem' && t in home' && Extends(home, home') && OnlyInside(mem, home, mem', h)
    && (InTable(h, v, m) && Fits(s, h.level, v, n) ==> Filled(s, mem, home, mem', home', t, v, m, b, device))
    && (s.Compact? && InTable(h, v, n) && mem[t] == ZeroTable() && !Fits(s, h.level, v, n) ==>
          Missed(mem', h, t, v, n))
    && (s.Granular? ==>
          && Raises(mem, mem', h, t, v, b - v)
          && (Covers(h, v) && Leaves(v, m) ==> LedHigh(mem', h, t, v, b - v)))
  }

  /** How far a compact fill has come: on the way of a range that fits, or with no way on
      or a page left out. */
  ghost predicate CompactSoFar(mem0: Memory, home0: map<int, Home>, mem: Memory, home: map<int, Home>, t: int,
                               v: nat, n: nat, done: nat, b: int, device: bool)
    requires t in home0 && t in mem0
  {
    var h, l := home0[t], home0[t].level;
    && t in mem && t in home && home[t] == h && done <= n
    && Extends(home0, home) && OnlyInside(mem0, home0, mem, h)
    && (done == 0 ==> mem == mem0 && home == home0)
    && (Fits(Compact, l, v, n) ==>
          && (done == 0 || done == n || Into(v + done, l) == 0)
          && (InTable(h, v, n) ==> Filled(Compact, mem0, home0, mem, home, t, v, done, b, device)))
    && (!Fits(Compact, l, v, n) && done > 0 ==>
          if done == n then InTable(h, v, n) && mem0[t] == ZeroTable() ==> Missed(mem, h, t, v, n)
          else Chunk(Compact, l, v + done, n - done) == 0)
  }

  lemma OnlyInsideMore(mem0: Memory, home0: map<int, Home>, mem: Memory, home: map<int, Home>, mem': Memory, h: Home)
    requires Rooted(mem, home) && Extends(home0, home)
    requires OnlyInside(mem0, home0, mem, h) && OnlyInside(mem, home, mem', h)
    ensures OnlyInside(mem0, home0, mem', h)
  {
    forall x | x in mem0 && x in home0
      ensures x in mem' && (mem'[x] == mem0[x] || Inside(h, home0[x]))
    {
      assert x in mem && x in home;
    }
  }

  /** Writing an entry of the table itself, after its lower table. */
  lemma LowInside(mem: Memory, home: map<int, Home>, low: Memory, home': map<int, Home>, t: int, v: nat, d: Desc)
    requires Rooted(mem, home) && Rooted(low, home') && Extends(home, home') && t in mem && home[t].level < 4
    requires OnlyInside(mem, home, low, ChildHome(home[t], Index(v, home[t].level)))
    ensures t in low && low[t] == mem[t] && |low[t]| == ENTRIES
    ensures OnlyInside(mem, home, WriteEntry(low, t, Index(v, home[t].level), d), home[t])
  {
    hide Index;
    RootedKeys(mem, home);
    ChildInside(home[t], v);
  }

  /** The fill of a range that fits goes on at the start of an entry, with a right cut. */
  lemma FittingCut(l: nat, v: nat, n: nat, done: nat)
    requires 1 <= l <= 4 && done < n && Fits(Compact, l, v, n) && (done == 0 || Into(v + done, l) == 0)
    ensures var f := Chunk(Compact, l, v + done, n - done);
            && RightCut(Compact, l, v + done, n - done) && done + f <= n
            && (done + f == n || Into(v + done + f, l) == 0)
            && (l < 4 ==> Fits(Compact, l + 1, v + done, f))
  {
    hide Fits, Into, EntrySize;
    CompactCut(l, v + done, n - done);
    if done == 0 { assert v + done == v && n - done == n; }
  }

  /** A block or page, at the start of an entry. */
  lemma CompactWrote(mem0: Memory, home0: map<int, Home>, mem: Memory, home: map<int, Home>, t: int,
                     v: nat, n: nat, done: nat, b: int, device: bool, p: int)
    requires Rooted(mem0, home0) && Rooted(mem, home) && t in mem0 && done < n && home0[t].level >= 2
    requires CompactSoFar(mem0, home0, mem, home, t, v, n, done, b, device)
    requires var l := home0[t].level;
             Into(v + done, l) == 0 && EntrySize(l) <= n - done && p == b + done - (b + done) % EntrySize(l)
    ensures |mem[t]| == ENTRIES
    ensures var mem' := WriteEntry(mem, t, Index(v + done, home0[t].level), Leaf(p, device));
            && Rooted(mem', home)
            && CompactSoFar(mem0, home0, mem', home, t, v, n, done + EntrySize(home0[t].level), b, device)
  {
    hide Index, Into, EntrySize, Filled, Fits, Rooted, Missed, Span, ProperHome;
    RootedKeys(mem, home);
    RootedKeys(mem0, home0);
    var h, l := home0[t], home0[t].level;
    var i := Index(v + done, l);
    HomeLevel(h);
    SizeAt(l);
    CompactCut(l, v + done, n - done);
    WriteRooted(mem, home, t, i, Leaf(p, device));
    var mem' := WriteEntry(mem, t, i, Leaf(p, device));
    assert OnlyInside(mem, home, mem', h) by { SelfInside(h); }
    OnlyInsideMore(mem0, home0, mem, home, mem', h);
    assert Fits(Compact, l, v, n) by { if done == 0 { assert v + done == v && n - done == n; } }
    FittingCut(l, v, n, done);
    if InTable(h, v, n) {
      assert NextPart(h, v, n, done, EntrySize(l));
      LeafStep(Compact, mem0, home0, mem, home, t, v, n, done, b, device, p);
    }
  }

  lemma SelfInside(h: Home)
    ensures Inside(h, h)
  {
  }

  /** A lower table filled for the next entry. */
  lemma CompactLowered(mem0: Memory, home0: map<int, Home>, mem: Memory, home: map<int, Home>,
                       low: Memory, home': map<int, Home>, t: int, c: int, v: nat, n: nat, done: nat, f: nat,
                       b: int, device: bool)
    requires Rooted(mem0, home0) && Rooted(mem, home) && Rooted(low, home') && t in mem0 && done < n
    requires CompactSoFar(mem0, home0, mem, home, t, v, n, done, b, device) && home0[t].level < 4
    requires f == Chunk(Compact, home0[t].level, v + done, n - done) && 0 < f < EntrySize(home0[t].level)
    requires Lowered(Compact, mem, home, low, home', t, c, v + done, f, b + done, device)
    ensures t in low && |low[t]| == ENTRIES
    ensures var mem' := WriteEntry(low, t, Index(v + done, home0[t].level), Table(c));
            && Rooted(mem', home') && done + f <= n
            && CompactSoFar(mem0, home0, mem', home', t, v, n, done + f, b, device)
  {
    hide Index, Into, EntrySize, Filled, Fits, Rooted, Missed, Span, ProperHome, Descended, Chunk, Raises, LedHigh,
      Leaves, Extends, OnlyInside;
    RootedKeys(mem, home);
    RootedKeys(mem0, home0);
    var h, l := home0[t], home0[t].level;
    HomeLevel(h);
    LowInside(mem, home, low, home', t, v + done, Table(c));
    ExtendsAt(home, home', t);
    LoweredRooted(low, home', t, c, v + done);
    var mem' := WriteEntry(low, t, Index(v + done, l), Table(c));
    OnlyInsideMore(mem0, home0, mem, home, mem', h);
    CompactCut(l, v + done, n - done);
    ExtendsMore(home0, home, home');
    if Fits(Compact, l, v, n) {
      FittingCut(l, v, n, done);
      if InTable(h, v, n) {
        assert NextPart(h, v, n, done, f);
        TableStep(Compact, mem0, home0, mem, home, low, home', t, c, v, n, done, f, b, device);
      }
    } else {
      assert done == 0;
      LoweredAstray(mem, home, low, home', t, c, v, n, f, b, device);
    }
  }

  lemma ExtendsMore(home0: map<int, Home>, home: map<int, Home>, home': map<int, Home>)
    requires Extends(home0, home) && Extends(home, home')
    ensures Extends(home0, home')
  {
  }

  lemma ExtendsAt(home: map<int, Home>, home': map<int, Home>, t: int)
    requires Extends(home, home') && t in home
    ensures t in home' && home'[t] == home[t]
  {
  }

  lemma LoweredRooted(low: Memory, home: map<int, Home>, t: int, c: int, v: nat)
    requires Rooted(low, home) && t in low && c in home && home[t].level < 4
    requires home[c] == ChildHome(home[t], Index(v, home[t].level))
    ensures |low[t]| == ENTRIES && Rooted(WriteEntry(low, t, Index(v, home[t].level), Table(c)), home)
  {
    hide Index;
    WriteRooted(low, home, t, Index(v, home[t].level), Table(c));
  }

  /** The first part of a range that does not fit: if the fill ends with it, a page of the
      range leads nowhere, and if not it never ends. */
  lemma LoweredAstray(mem: Memory, home: map<int, Home>, low: Memory, home': map<int, Home>, t: int, c: int,
                      v: nat, n: nat, f: nat, b: int, device: bool)
    requires Rooted(mem, home) && Rooted(low, home') && t in mem && home[t].level < 4 && n > 0
    requires !Fits(Compact, home[t].level, v, n) && f == Chunk(Compact, home[t].level, v, n) > 0
    requires Lowered(Compact, mem, home, low, home', t, c, v, f, b, device)
    requires t in low && |low[t]| == ENTRIES && low[t] == mem[t]
    ensures f < n ==> Chunk(Compact, home[t].level, v + f, n - f) == 0
    ensures f == n && InTable(home[t], v, n) && mem[t] == ZeroTable() ==>
              Missed(WriteEntry(low, t, Index(v, home[t].level), Table(c)), home[t], t, v, n)
  {
    hide Index, Into, EntrySize, Fits, Rooted, Missed, Span, ProperHome, Descended, Chunk, Raises, LedHigh, Leaves,
      OnlyInside;
    RootedKeys(mem, home);
    RootedKeys(low, home');
    var h, l := home[t], home[t].level;
    HomeLevel(h);
    ExtendsAt(home, home', t);
    CompactCut(l, v, n);
    if !RightCut(Compact, l, v, n) { WrongCut(l, v, n); }
    if f == n && InTable(h, v, n) && mem[t] == ZeroTable() {
      var mem' := WriteEntry(low, t, Index(v, l), Table(c));
      if !RightCut(Compact, l, v, n) {
        forall w: nat | Index(w, l) != Index(v, l)
          ensures Entry(mem', l, t, w).Invalid?
        {
          WriteElsewhere(low, home', t, v, Table(c), w);
        }
        BeyondMissed(mem', h, t, v, n);
      } else {
        TableMissed(low, home', t, c, h, v, n);
      }
    }
  }

  lemma CompactStart(mem: Memory, home: map<int, Home>, t: int, v: nat, n: nat, b: int, device: bool)
    requires Rooted(mem, home) && t in mem
    ensures CompactSoFar(mem, home, mem, home, t, v, n, 0, b, device)
  {
    hide Index, Into, Fits, Filled, Missed;
    NoneFilled(Compact, mem, home, t, v, b, device);
  }

  /** The next part, as the loop computes it. */
  lemma CompactNext(mem0: Memory, home0: map<int, Home>, mem: Memory, home: map<int, Home>, t: int,
                    v: nat, n: nat, done: nat, b: int, device: bool)
    requires t in mem0 && t in home0 && ProperHome(home0[t]) && done < n
    requires CompactSoFar(mem0, home0, mem, home, t, v, n, done, b, device)
    ensures var l, rest := home0[t].level, n - done;
            var f := Chunk(Compact, l, v + done, rest);
            && f <= rest
            && (Fits(Compact, l, v, n) ==> f > 0 && (l < 4 ==> Fits(Compact, l + 1, v + done, f)))
            && (Into(v + done, l) != 0 || rest < EntrySize(l) ==> l < 4 && f < EntrySize(l))
  {
    hide Fits, Filled, Missed, EntrySize, Into;
    var l := home0[t].level;
    HomeLevel(home0[t]);
    SizeAt(l);
    IntoLess(n - done, l);
    CompactCut(l, v + done, n - done);
    if Fits(Compact, l, v, n) { FittingCut(l, v, n, done); }
  }

  lemma IntoLess(n: nat, l: nat)
    ensures Into(n, l) < EntrySize(l)
  {
  }

  lemma CompactEnd(mem0: Memory, home0: map<int, Home>, mem: Memory, home: map<int, Home>, t: int,
                   v: nat, n: nat, b: int, device: bool)
    requires t in mem0 && t in home0 && CompactSoFar(mem0, home0, mem, home, t, v, n, n, b, device)
    ensures Written(Compact, mem0, home0, mem, home, t, v, n, b, device)
  {
    hide Filled, Missed, Into;
  }

  lemma WholeEntry(l: nat, v: nat, n: nat, done: nat)
    requires Into(v + done, l) == 0 && done <= n && EntrySize(l) <= n - done
    ensures HoldsEntry(l, v, n)
  {
  }

  /** A whole entry of level 1 in the range is still ahead, or there is no way on. */
  ghost predicate WholeAhead(l: nat, v: nat, n: nat, done: nat)
    requires done <= n
  {
    l == 1 && HoldsEntry(1, v, n) ==>
      done < n && (HoldsEntry(1, v + done, n - done) || Chunk(Compact, 1, v + done, n - done) == 0)
  }

  lemma WholeStart(l: nat, v: nat, n: nat)
    ensures WholeAhead(l, v, n, 0)
  {
  }

  lemma WholeAbsent(l: nat, v: nat, n: nat, done: nat)
    requires l != 1 && done <= n
    ensures WholeAhead(l, v, n, done)
  {
  }

  lemma WholeDone(l: nat, v: nat, n: nat)
    requires WholeAhead(l, v, n, n)
    ensures l == 1 ==> !HoldsEntry(1, v, n)
  {
  }

  /** A part smaller than an entry does not pass a whole one. */
  lemma WholeStays(l: nat, v: nat, n: nat, done: nat, f: nat)
    requires 1 <= l <= 4 && done < n && done + f <= n && WholeAhead(l, v, n, done)
    requires f == Chunk(Compact, l, v + done, n - done) && 0 < f < EntrySize(l)
    ensures WholeAhead(l, v, n, done + f)
  {
    hide Into, EntrySize, Chunk, RightCut;
    if l == 1 && HoldsEntry(1, v, n) {
      var v', rest := v + done, n - done;
      var s: nat :| v' <= s && s + EntrySize(1) <= v' + rest && Into(s, 1) == 0;
      CompactCut(1, v', rest);
      if !RightCut(Compact, 1, v', rest) {
        WrongCut(1, v', rest);
        assert v' + f == v + (done + f) && rest - f == n - (done + f);
      } else if s < v' + f {
        EntryNotCut(1, s, v' + f);
      }
    }
  }

  /** What the rest of the code does when a lower table has been filled. */
  lemma LoweredKept(s: Strategy, mem: Memory, home: map<int, Home>, low: Memory, home': map<int, Home>, t: int, c: int,
                    v: nat, n: nat, b: int, device: bool)
    requires Rooted(mem, home) && Rooted(low, home') && t in mem && t in home && home[t].level < 4
    requires Lowered(s, mem, home, low, home', t, c, v, n, b, device)
    ensures t in low && |low[t]| == ENTRIES && t in home' && home'[t] == home[t]
  {
    hide Index, Into, Fits, Descended, Raises, LedHigh;
    LowInside(mem, home, low, home', t, v, Table(c));
    ExtendsAt(home, home', t);
  }

  /** From a filled lower table to the part of the upper table it serves. */
  lemma LoweredFrom(s: Strategy, mem: Memory, home: map<int, Home>, low: Memory, lowHome: map<int, Home>,
                    mem': Memory, home': map<int, Home>, t: int, c: int, v: nat, n: nat, b: int, device: bool)
    requires Rooted(mem, home) && t in mem && home[t].level < 4
    requires Supplied(mem, home, low, lowHome, t, c, v)
    requires Written(s, low, lowHome, mem', home', c, v, n, b, device)
    ensures Lowered(s, mem, home, mem', home', t, c, v, n, b, device)
  {
    hide Index, Into, EntrySize, Fits, Filled, Descended, Raises, LedHigh, Rooted, Leaves, Missed;
    RootedKeys(mem, home);
    var h, l, m := home[t], home[t].level, Pages(s, n);
    var k := ChildHome(h, Index(v, l));
    SuppliedExtends(mem, home, low, lowHome, mem', home', t, c, v);
    if Covers(h, v) {
      EntryFacts(h, v);
      StartIs(v, l);
      if m > 0 && Into(v, l) + m <= EntrySize(l) && Fits(s, l + 1, v, n) {
        DescendedFrom(s, mem, home, low, lowHome, mem', home', t, c, v, m, b, device);
      }
    }
  }

  lemma SuppliedExtends(mem: Memory, home: map<int, Home>, low: Memory, lowHome: map<int, Home>,
                        mem': Memory, home': map<int, Home>, t: int, c: int, v: nat)
    requires Rooted(mem, home) && t in mem && Supplied(mem, home, low, lowHome, t, c, v)
    requires Extends(lowHome, home') && OnlyInside(low, lowHome, mem', lowHome[c])
    ensures Extends(home, home') && OnlyInside(mem, home, mem', ChildHome(home[t], Index(v, home[t].level)))
    ensures c in home' && home'[c] == lowHome[c]
  {
    hide Index;
    RootedKeys(mem, home);
    forall x | x in mem && x in home
      ensures x in mem' && (mem'[x] == mem[x] || Inside(lowHome[c], home[x]))
    {
      assert x in low && x in lowHome && low[x] == mem[x] && lowHome[x] == home[x];
    }
  }

  // --------------------------------------------------------------------- granular

  /** The range leaves the entry of level 3 it begins in. */
  predicate Leaves(v: nat, n: nat)
  {
    Into(v, 3) + n > EntrySize(3)
  }

  /** Page w walks through tables to a page entry further on than the fill's own distance
      between pages and memory. */
  predicate High(mem: Memory, l: nat, t: int, w: nat, distance: int)
    decreases 4 - l
  {
    match Entry(mem, l, t, w)
    case Invalid => false
    case Table(a) => l < 4 && High(mem, l + 1, a, w, distance)
    case Leaf(p, _) => l == 4 && p > w + distance
  }

  /** Pages before v that walk too far on still do. */
  ghost predicate Raises(mem: Memory, mem': Memory, h: Home, t: int, v: nat, distance: int)
  {
    forall w: nat | Covers(h, w) && w < v && High(mem, h.level, t, w, distance) :: High(mem', h.level, t, w, distance)
  }

  /** A page of v's entry of level 3 walks too far on. */
  ghost predicate LedHigh(mem: Memory, h: Home, t: int, v: nat, distance: int)
  {
    exists w: nat :: Covers(h, w) && EntryStart(w, 3) == EntryStart(v, 3) && High(mem, h.level, t, w, distance)
  }

  /** Like a walk, this depends only on the tables that cover the page. */
  lemma {:induction false} HighFrame(mem: Memory, mem': Memory, home: map<int, Home>, t: int, w: nat, distance: int)
    requires Rooted(mem, home) && t in mem && Covers(home[t], w)
    requires SameAround(mem, mem', home, home[t].root, home[t].level, w)
    ensures High(mem', home[t].level, t, w, distance) == High(mem, home[t].level, t, w, distance)
    decreases 4 - home[t].level
  {
    hide Index, Into, Covers, Rooted;
    WalkFrameStep(mem, mem', home, t, w);
    var l := home[t].level;
    var d := Entry(mem, l, t, w);
    if d.Table? && l < 4 {
      EntryLeads(mem, home, t, w);
      HighFrame(mem, mem', home, d.addr, w, distance);
    }
  }

  /** Writing an upper table changes nothing from a lower one. */
  lemma LowerHigh(low: Memory, home: map<int, Home>, mem': Memory, t: int, c: int, w: nat, l: nat, distance: int)
    requires Rooted(low, home) && t in low && c in low && home[t].level == l && home[c].level == l + 1
    requires Covers(home[c], w) && mem'.Keys == low.Keys && forall x | x in low && x != t :: mem'[x] == low[x]
    ensures High(mem', l + 1, c, w, distance) == High(low, l + 1, c, w, distance)
  {
    hide High, Rooted, Covers;
    HighFrame(low, mem', home, c, w, distance);
  }

  lemma HighBelow(mem: Memory, l: nat, t: int, c: int, w: nat, distance: int)
    requires Entry(mem, l, t, w) == Table(c) && l < 4
    ensures High(mem, l, t, w, distance) == High(mem, l + 1, c, w, distance)
  {
  }

  /** A page that walks too far on walks to other memory than its own. */
  lemma {:induction false} HighWalk(mem: Memory, l: nat, t: int, w: nat, distance: int)
    requires High(mem, l, t, w, distance)
    ensures Walk(mem, l, t, w).Some? && Walk(mem, l, t, w).value.page > w + distance
    decreases 4 - l
  {
    hide Index;
    var d := Entry(mem, l, t, w);
    if d.Table? { HighWalk(mem, l + 1, d.addr, w, distance); }
  }

  /** A page before v that walks too far on still does when v's entry has been filled. */
  lemma TableRaises(mem: Memory, home: map<int, Home>, low: Memory, home': map<int, Home>, t: int, c: int,
                    v: nat, n: nat, b: int, device: bool, w: nat)
    requires Rooted(mem, home) && Rooted(low, home') && t in mem && t in home && home[t].level < 4
    requires Lowered(Granular, mem, home, low, home', t, c, v, n, b, device)
    requires Covers(home[t], w) && w < v && High(mem, home[t].level, t, w, b - v)
    ensures t in low && |low[t]| == ENTRIES
    ensures High(WriteEntry(low, t, Index(v, home[t].level), Table(c)), home[t].level, t, w, b - v)
  {
    hide Index, Into, EntrySize, Filled, Fits, Rooted, Span, ProperHome, Descended, High, LedHigh, Leaves, EntryStart,
      Covers;
    RootedKeys(mem, home);
    RootedKeys(low, home');
    var h, l, D := home[t], home[t].level, b - v;
    HomeLevel(h);
    ExtendsAt(home, home', t);
    LowInside(mem, home, low, home', t, v, Table(c));
    LoweredRooted(low, home', t, c, v);
    var mem' := WriteEntry(low, t, Index(v, l), Table(c));
    WriteElsewhere(low, home', t, v, Table(c), w);
    HighEntry(mem, l, t, w, D);
    var d := Entry(mem, l, t, w);
    EntryLeads(mem, home, t, w);
    HighBelow(mem, l, t, d.addr, w, D);
    if Index(w, l) == Index(v, l) {
      EntryByIndex(mem, l, t, v, w);
      assert High(low, l + 1, c, w, D);
      LowerHigh(low, home', mem', t, c, w, l, D);
      HighBelow(mem', l, t, c, w, D);
    } else {
      forall x | x in mem && x in home && home[x].root == h.root && home[x].level >= l + 1 && Covers(home[x], w)
        ensures x in mem' && mem'[x] == mem[x]
      {
        if Inside(ChildHome(h, Index(v, l)), home[x]) { InsideApart(h, v, w, home[x]); }
      }
      HighFrame(mem, mem', home, d.addr, w, D);
      HighBelow(mem', l, t, d.addr, w, D);
    }
  }

  lemma HighEntry(mem: Memory, l: nat, t: int, w: nat, distance: int)
    requires High(mem, l, t, w, distance) && l < 4
    ensures Entry(mem, l, t, w).Table?
  {
  }

  /** A page that walks too far on from a lower table does so from the upper one. */
  lemma TableHigh(low: Memory, home: map<int, Home>, t: int, c: int, h: Home, v: nat, distance: int)
    requires Rooted(low, home) && t in low && c in low && home[t] == h && h.level < 4 && Covers(h, v)
    requires home[c] == ChildHome(h, Index(v, h.level)) && LedHigh(low, home[c], c, v, distance)
    requires |low[t]| == ENTRIES
    ensures LedHigh(WriteEntry(low, t, Index(v, h.level), Table(c)), h, t, v, distance)
  {
    hide High, Index, Rooted, Into, EntryStart, EntrySize, Span;
    RootedKeys(low, home);
    var l, mem' := h.level, WriteEntry(low, t, Index(v, h.level), Table(c));
    var w: nat :| Covers(home[c], w) && EntryStart(w, 3) == EntryStart(v, 3) && High(low, l + 1, c, w, distance);
    ChildCovers(h, v, w);
    WriteElsewhere(low, home, t, v, Table(c), w);
    LowerHigh(low, home, mem', t, c, w, l, distance);
    HighBelow(mem', l, t, c, w, distance);
  }

  /** How far a granular fill has come. */
  ghost predicate GranularSoFar(mem0: Memory, home0: map<int, Home>, mem: Memory, home: map<int, Home>, t: int,
                                v: nat, n: nat, done: nat, b: int, device: bool)
    requires t in home0 && t in mem0
  {
    var h, l, m := home0[t], home0[t].level, Pages(Granular, n);
    && t in mem && t in home && home[t] == h && done <= m
    && Extends(home0, home) && OnlyInside(mem0, home0, mem, h)
    && (InTable(h, v, m) && Fits(Granular, l, v, n) ==>
          Filled(Granular, mem0, home0, mem, home, t, v, done, b, device))
    && Raises(mem0, mem, h, t, v, b - v)
    && (Covers(h, v) && Leaves(v, m) && (if l < 4 then done > 0 else Into(v, 3) + done > EntrySize(3)) ==>
          LedHigh(mem, h, t, v, b - v))
  }

  /** How much of the range is left, and how far the next entry takes it. */
  predicate Rest(s: nat, n: nat, done: nat, rest: nat, e: nat)
  {
    (if done == 0 then rest == n else done >= e && rest > 0 && rest == n - done)
    && s == (if rest <= e then Pages(Granular, rest) else e)
  }

  /** A range that leaves an entry at any level above leaves that of level 3. */
  lemma LeavesBelow(l: nat, v: nat, n: nat)
    requires 1 <= l <= 3
    ensures Into(v, l) + n > EntrySize(l) ==> Leaves(v, n)
  {
    hide Index, Into, EntrySize;
    StartIs(v, l);
    StartIs(v, 3);
    LowerEntry(v, 1);
    LowerEntry(v, 2);
  }

  /** A granular fill fits exactly when it stays in an entry of level 3. */
  lemma GranularFitsIff(l: nat, v: nat, n: nat)
    requires 1 <= l <= 3
    ensures Fits(Granular, l, v, n) <==> !Leaves(v, Pages(Granular, n))
    decreases 3 - l
  {
    hide Into, EntrySize;
    LeavesBelow(l, v, Pages(Granular, n));
    if l < 3 { GranularFitsIff(l + 1, v, n); }
  }

  /** A lower table filled with all the rest of the range. */
  lemma GranularLowered(mem0: Memory, home0: map<int, Home>, mem: Memory, home: map<int, Home>,
                        low: Memory, home': map<int, Home>, t: int, c: int, v: nat, n: nat, done: nat, rest: nat,
                        s: nat, b: int, device: bool)
    requires Rooted(mem0, home0) && Rooted(mem, home) && Rooted(low, home') && t in mem0
    requires GranularSoFar(mem0, home0, mem, home, t, v, n, done, b, device) && home0[t].level < 4
    requires Rest(s, n, done, rest, EntrySize(home0[t].level))
    requires Lowered(Granular, mem, home, low, home', t, c, v + done, rest, b + done, device)
    ensures t in low && |low[t]| == ENTRIES
    ensures var mem' := WriteEntry(low, t, Index(v + done, home0[t].level), Table(c));
            && Rooted(mem', home')
            && GranularSoFar(mem0, home0, mem', home', t, v, n, done + s, b, device)
  {
    hide Index, Into, EntrySize, Filled, Fits, Rooted, Span, ProperHome, Descended, High, Leaves, EntryStart, Extends,
      OnlyInside, Covers;
    RootedKeys(mem, home);
    RootedKeys(mem0, home0);
    var h, l, m, D := home0[t], home0[t].level, Pages(Granular, n), b - v;
    HomeLevel(h);
    LowInside(mem, home, low, home', t, v + done, Table(c));
    ExtendsAt(home, home', t);
    LoweredRooted(low, home', t, c, v + done);
    var mem' := WriteEntry(low, t, Index(v + done, l), Table(c));
    OnlyInsideMore(mem0, home0, mem, home, mem', h);
    ExtendsMore(home0, home, home');
    if InTable(h, v, m) && Fits(Granular, l, v, n) {
      GranularWhole(h, v, n, done, rest, s);
      TableStep(Granular, mem0, home0, mem, home, low, home', t, c, v, m, 0, m, b, device);
    }
    forall w: nat | Covers(h, w) && w < v && High(mem0, l, t, w, D)
      ensures High(mem', l, t, w, D)
    {
      TableRaises(mem, home, low, home', t, c, v + done, rest, b + done, device, w);
    }
    if Covers(h, v) && Leaves(v, m) {
      if done == 0 {
        TableHigh(low, home', t, c, h, v, D);
      } else {
        var w: nat :| Covers(h, w) && EntryStart(w, 3) == EntryStart(v, 3) && High(mem, l, t, w, D);
        NearStart(l, v, w);
        TableRaises(mem, home, low, home', t, c, v + done, rest, b + done, device, w);
      }
    }
  }

  lemma NearStart(l: nat, v: nat, w: nat)
    requires 1 <= l <= 3 && EntryStart(w, 3) == EntryStart(v, 3)
    ensures w < v + EntrySize(l) && w + Into(v, 3) < v + EntrySize(3)
  {
  }

  /** A range that fits is passed down whole. */
  lemma GranularWhole(h: Home, v: nat, n: nat, done: nat, rest: nat, s: nat)
    requires ProperHome(h) && h.level < 4 && InTable(h, v, Pages(Granular, n)) && Fits(Granular, h.level, v, n)
    requires Rest(s, n, done, rest, EntrySize(h.level)) && done <= Pages(Granular, n)
    ensures done == 0 && s == Pages(Granular, n) && NextPart(h, v, s, 0, s)
    ensures Into(v, h.level) + s <= EntrySize(h.level) && Fits(Granular, h.level + 1, v, n)
  {
  }

  /** A page written at the next entry. */
  lemma GranularWrote(mem0: Memory, home0: map<int, Home>, mem: Memory, home: map<int, Home>, t: int,
                      v: nat, n: nat, done: nat, b: int, device: bool)
    requires Rooted(mem0, home0) && Rooted(mem, home) && t in mem0 && home0[t].level == 4
    requires GranularSoFar(mem0, home0, mem, home, t, v, n, done, b, device) && done < Pages(Granular, n)
    ensures |mem[t]| == ENTRIES
    ensures var mem' := WriteEntry(mem, t, Index(v + done, 4), Leaf(b + done, device));
            && Rooted(mem', home)
            && GranularSoFar(mem0, home0, mem', home, t, v, n, done + 1, b, device)
  {
    hide Index, Filled, Fits, Rooted, Span, ProperHome, Covers, EntryStart, EntrySize, Into;
    RootedKeys(mem, home);
    RootedKeys(mem0, home0);
    var h, m, D, i := home0[t], Pages(Granular, n), b - v, Index(v + done, 4);
    SizeAt(4);
    WriteRooted(mem, home, t, i, Leaf(b + done, device));
    var mem' := WriteEntry(mem, t, i, Leaf(b + done, device));
    assert OnlyInside(mem, home, mem', h) by { SelfInside(h); }
    OnlyInsideMore(mem0, home0, mem, home, mem', h);
    if InTable(h, v, m) && Fits(Granular, 4, v, n) {
      PagePart(h, v, m, done);
      LeafStep(Granular, mem0, home0, mem, home, t, v, m, done, b, device, b + done);
    }
    forall w: nat
      ensures Entry(mem', 4, t, w) == if Index(w, 4) == i then Leaf(b + done, device) else Entry(mem, 4, t, w)
    {
      WriteElsewhere(mem, home, t, v + done, Leaf(b + done, device), w);
    }
    if Covers(h, v) && Leaves(v, m) && Into(v, 3) + done + 1 > EntrySize(3) {
      if Into(v, 3) + done > EntrySize(3) {
        var w: nat :| Covers(h, w) && EntryStart(w, 3) == EntryStart(v, 3) && High(mem, 4, t, w, D);
        assert High(mem', 4, t, w, D) by { NearStart(3, v, w); }
      } else {
        FirstAgain(h, v, done);
        var w: nat := EntryStart(v, 3);
        assert High(mem', 4, t, w, D);
      }
    }
  }

  /** Past its end a level 4 table's first entry comes round again. */
  lemma FirstAgain(h: Home, v: nat, done: nat)
    requires ProperHome(h) && h.level == 4 && Covers(h, v) && Into(v, 3) + done == EntrySize(3)
    ensures var w: nat := EntryStart(v, 3);
            Covers(h, w) && EntryStart(w, 3) == EntryStart(v, 3) && Index(w, 4) == Index(v + done, 4) && w < v + done
  {
    var w := EntryStart(v, 3);
    assert h.first == 512 * (h.first / 512) + 0;
    assert v == 512 * (v / 512) + v % 512;
    assert w == 512 * (v / 512) + 0 && v + done == 512 * (v / 512 + 1) + 0;
    DivisionIs(512, v / 512, 0);
    DivisionIs(512, v / 512 + 1, 0);
  }

  lemma PagePart(h: Home, v: nat, n: nat, done: nat)
    requires ProperHome(h) && InTable(h, v, n) && done < n && h.level == 4
    ensures NextPart(h, v, n, done, EntrySize(4)) && EntrySize(4) == 1 && forall b: int :: b % EntrySize(4) == 0
  {
  }

  lemma GranularStart(mem: Memory, home: map<int, Home>, t: int, v: nat, n: nat, b: int, device: bool)
    requires Rooted(mem, home) && t in mem
    ensures GranularSoFar(mem, home, mem, home, t, v, n, 0, b, device)
  {
    hide Index, Fits, Filled, High;
    NoneFilled(Granular, mem, home, t, v, b, device);
  }

  lemma GranularEnd(mem0: Memory, home0: map<int, Home>, mem: Memory, home: map<int, Home>, t: int,
                    v: nat, n: nat, b: int, device: bool)
    requires t in mem0 && t in home0
    requires GranularSoFar(mem0, home0, mem, home, t, v, n, Pages(Granular, n), b, device)
    ensures Written(Granular, mem0, home0, mem, home, t, v, n, b, device)
  {
    hide Filled, High;
  }

  // --------------------------------------------------------------- the exact condition

  /** The range is mapped, and nothing else. */
  ghost predicate MapsJust(mem: Memory, h: Home, t: int, v: nat, n: nat, b: int, device: bool)
  {
    forall w: nat | Covers(h, w) ::
      Walk(mem, h.level, t, w) == if InRange(w, v, n) then Some(Out(b + (w - v), device)) else None
  }

  /** Walks that are mapped lead no page of the range off. */
  lemma MisledNotMapped(mem: Memory, mem': Memory, h: Home, t: int, v: nat, n: nat, b: int, device: bool)
    requires Misled(mem', h, t, v, n, b)
    ensures !WalksMapped(mem, mem', h, t, v, n, b, device)
  {
    hide Walk, Survives, Covers;
  }

  /** From a zeroed table, to be mapped as expected is to be mapped and nothing else. */
  lemma ZeroExpected(mem: Memory, mem': Memory, h: Home, t: int, v: nat, n: nat, b: int, device: bool)
    requires t in mem && mem[t] == ZeroTable()
    ensures WalksMapped(mem, mem', h, t, v, n, b, device) <==> MapsJust(mem', h, t, v, n, b, device)
  {
    hide Walk, Survives, Covers;
    forall w: nat
      ensures Survives(mem, h.level, t, w, v, n) == None
    {
      ZeroWalks(mem, h.level, t, w, v, n);
    }
  }

  lemma MissedNotMapped(mem: Memory, h: Home, t: int, v: nat, n: nat, b: int, device: bool)
    requires Missed(mem, h, t, v, n)
    ensures !MapsJust(mem, h, t, v, n, b, device)
  {
    hide Walk, Covers;
  }

  lemma HighNotMapped(mem: Memory, h: Home, t: int, v: nat, n: nat, b: int, device: bool)
    requires LedHigh(mem, h, t, v, b - v)
    ensures !MapsJust(mem, h, t, v, n, b, device)
  {
    hide Walk, Covers, High, EntryStart, Index;
    var w: nat :| Covers(h, w) && EntryStart(w, 3) == EntryStart(v, 3) && High(mem, h.level, t, w, b - v);
    HighWalk(mem, h.level, t, w, b - v);
    assert Walk(mem, h.level, t, w) != if InRange(w, v, n) then Some(Out(b + (w - v), device)) else None;
  }

  /** What a fill from a root table leaves: a range that fits is mapped as expected exactly
      when it is faithful, and from a zeroed root no other range is. */
  lemma WrittenWalks(s: Strategy, mem: Memory, home: map<int, Home>, mem': Memory, home': map<int, Home>,
                     t: int, v: nat, n: nat, b: int, device: bool)
    requires t in mem && t in home && 1 <= home[t].level <= 3 && InTable(home[t], v, Pages(s, n))
    requires Written(s, mem, home, mem', home', t, v, n, b, device)
    ensures var h, m := home[t], Pages(s, n);
            && (Fits(s, h.level, v, n) ==>
                  (WalksMapped(mem, mem', h, t, v, m, b, device) <==> Faithful(s, h.level, v, m, b)))
            && (mem[t] == ZeroTable() ==>
                  (MapsJust(mem', h, t, v, m, b, device)
                   <==> Fits(s, h.level, v, n) && Faithful(s, h.level, v, m, b)))
  {
    hide Faithful, Fits, Walk, WalksMapped, MapsJust, Raises, LedHigh, Leaves, Missed, Misled, Kept;
    var h, m := home[t], Pages(s, n);
    if Fits(s, h.level, v, n) {
      if !Faithful(s, h.level, v, m, b) { MisledNotMapped(mem, mem', h, t, v, m, b, device); }
    }
    if mem[t] == ZeroTable() {
      ZeroExpected(mem, mem', h, t, v, m, b, device);
      if !Fits(s, h.level, v, n) {
        if s.Compact? {
          MissedNotMapped(mem', h, t, v, m, b, device);
        } else {
          GranularFitsIff(h.level, v, n);
          HighNotMapped(mem', h, t, v, m, b, device);
        }
      }
    }
  }

  /** No other address space changes. */
  lemma WrittenElsewhere(s: Strategy, mem: Memory, home: map<int, Home>, mem': Memory, home': map<int, Home>,
                         t: int, v: nat, n: nat, b: int, device: bool)
    requires t in mem && t in home && Written(s, mem, home, mem', home', t, v, n, b, device)
    ensures t in home' && home'[t] == home[t]
    ensures forall x | x in mem && x in home && home[x].root != home[t].root :: x in mem' && mem'[x] == mem[x]
  {
    hide Fits, Filled, Raises, LedHigh, Leaves, Missed;
  }

  /** Two pages on either side of the end of an entry of level 3 are mapped right by
      neither strategy; a compact fill of an entry's worth of pages that starts one page
      late never ends; and an entry mapped to memory that starts one page late fits both
      strategies and is faithful only for the granular one. */
  lemma RangesThatFail()
    ensures !Fits(Compact, 1, 511, 2) && !Fits(Granular, 1, 511, 2)
    ensures !Fits(Compact, 1, 1, 512) && Chunk(Compact, 3, 1, 512) == 0
    ensures Fits(Compact, 1, 0, 512) && !Faithful(Compact, 1, 0, 512, 1)
    ensures Fits(Granular, 1, 0, 512) && Faithful(Granular, 1, 0, 512, 1)
  {
    assert HoldsEntry(3, 0, 512) by { assert Into(0, 3) == 0; }
    assert Into(513, 3) == 1 && Into(513, 2) == 513;
    assert !Fits(Compact, 3, 511, 2) && !Fits(Compact, 3, 1, 512);
    assert !Fits(Compact, 2, 511, 2) && !Fits(Compact, 2, 1, 512);
    assert !Fits(Granular, 3, 511, 2);
    assert !Fits(Granular, 2, 511, 2);
    assert Fits(Granular, 4, 0, 512);
    assert Fits(Granular, 3, 0, 512);
    assert Fits(Granular, 2, 0, 512);
  }
}
