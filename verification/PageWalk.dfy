/** Four-level page tables as values: where a page walks to, and what a fill of a range
    of pages must leave. Addresses are page numbers: the offset inside a page plays no
    part. Level 1 is the root, whose entries cover 512 GiB; level 4 entries are pages. */
module PageWalk {
  import opened Rings

  const ENTRIES: nat := 512

  /** The pages an entry of a table at a level covers. */
  function EntrySize(l: nat): (e: nat)
    ensures e > 0
  {
    if l >= 4 then 1 else if l == 3 then 512 else if l == 2 then 262_144 else 134_217_728
  }

  /** The pages a whole table at a level covers. */
  function Span(l: nat): nat
  {
    ENTRIES * EntrySize(l)
  }

  /** How far page v is into its entry of a table at a level. */
  function Into(v: nat, l: nat): nat
  {
    v % EntrySize(l)
  }

  /** The entry for page v in a table at a level. */
  function Index(v: nat, l: nat): (i: nat)
    ensures i < ENTRIES
  {
    (v / EntrySize(l)) % ENTRIES
  }

  /** The first page of v's entry. */
  function EntryStart(v: nat, l: nat): nat
  {
    v - Into(v, l)
  }

  // ----------------------------------------------------------------------- tables

  /** A descriptor: nothing, a lower table, or a block or page of memory. */
  datatype Desc = Invalid | Table(addr: int) | Leaf(page: int, device: bool)

  type Memory = map<int, seq<Desc>>

  /** Which address space a table serves, at which level, from which page on. */
  datatype Home = Home(root: int, level: nat, first: nat)

  function ChildHome(h: Home, i: nat): Home
  {
    Home(h.root, h.level + 1, h.first + i * EntrySize(h.level))
  }

  predicate ProperHome(h: Home)
  {
    1 <= h.level <= 4 && h.first % Span(h.level) == 0
  }

  predicate Covers(h: Home, v: nat)
  {
    h.first <= v < h.first + Span(h.level)
  }

  /** Every table has one home, and every table entry points to the table whose home is
      that entry: no table is shared. */
  ghost predicate Rooted(mem: Memory, home: map<int, Home>)
  {
    && mem.Keys == home.Keys
    && forall t | t in mem :: |mem[t]| == ENTRIES && ProperHome(home[t]) && EntriesRooted(mem, home, t)
  }

  ghost predicate EntriesRooted(mem: Memory, home: map<int, Home>, t: int)
    requires t in mem && t in home && |mem[t]| == ENTRIES
  {
    forall i | 0 <= i < ENTRIES && home[t].level < 4 :: PointsHome(home, mem[t][i], ChildHome(home[t], i))
  }

  predicate PointsHome(home: map<int, Home>, d: Desc, h: Home)
  {
    d.Table? ==> d.addr in home && home[d.addr] == h
  }

  // ------------------------------------------------------------------- arithmetic

  lemma Times(n: int, k: int)
    requires n > 0
    ensures k >= 1 ==> n * k >= n
    ensures k <= -1 ==> n * k <= -n
  {
    if k >= 1 { assert n * k == n + n * (k - 1); } else if k <= -1 { assert n * k == -n + n * (k + 1); }
  }

  lemma DivisionIs(e: int, q: int, r: int)
    requires 0 <= r < e
    ensures (e * q + r) / e == q && (e * q + r) % e == r
  {
    var v := e * q + r;
    var q', r' := v / e, v % e;
    assert v == e * q' + r';
    assert e * (q - q') == r' - r;
    Times(e, q - q');
  }

  /** The index times the entry size leads to the start of the entry. */
  lemma IndexIs(e: int, first: int, v: int)
    requires e > 0 && first % (512 * e) == 0 && 0 <= first <= v < first + 512 * e
    ensures (v / e) % 512 >= 0 && first + ((v / e) % 512) * e == v - v % e
  {
    var k, off := first / (512 * e), v - first;
    var i, r := off / e, off % e;
    assert off == e * i + r;
    Between(e, i, 512, r);
    assert first == (512 * e) * k;
    assert v == e * (512 * k + i) + r;
    DivisionIs(e, 512 * k + i, r);
    DivisionIs(512, k, i);
  }

  /** A remainder more or less does not change which multiples a number lies between. */
  lemma Between(e: int, i: int, n: int, r: int)
    requires e > 0 && 0 <= r < e && 0 <= e * i + r < n * e
    ensures 0 <= i < n
  {
    Times(e, i - n + 1);
    Times(e, i);
    assert e * i == n * e - e + e * (i - n + 1);
  }

  /** A block of s pages inside a larger one of s * m pages. */
  lemma BlockInside(s: int, m: int, first: int, w: int)
    requires s > 0 && m > 0 && first % s == 0 && 0 <= first <= w < first + s
    ensures var e := s * m; e > 0 && w - w % e <= first && first + s <= w - w % e + e
  {
    var e, k, d := s * m, first / s, w - first;
    var a, c := k / m, k % m;
    assert first == s * k && k == m * a + c;
    assert first == e * a + s * c;
    TimesFits(s, c, m);
    DivisionIs(e, a, s * c + d);
  }

  lemma TimesFits(s: int, c: int, m: int)
    requires s > 0 && 0 <= c < m
    ensures 0 <= s * c && s * c + s <= s * m
  {
    Times(s, m - c - 1);
    Times(s, c);
    assert s * m == s * c + s + s * (m - c - 1);
  }

  lemma EntryFacts(h: Home, v: nat)
    requires ProperHome(h) && Covers(h, v)
    ensures 0 <= EntryStart(v, h.level) <= v < EntryStart(v, h.level) + EntrySize(h.level)
    ensures ChildHome(h, Index(v, h.level)).first == EntryStart(v, h.level)
    ensures h.first <= EntryStart(v, h.level) && EntryStart(v, h.level) + EntrySize(h.level) <= h.first + Span(h.level)
    ensures h.level < 4 ==>
              var c := ChildHome(h, Index(v, h.level));
              ProperHome(c) && Covers(c, v) && Span(c.level) == EntrySize(h.level)
  {
    var e := EntrySize(h.level);
    IndexIs(e, h.first, v);
    TimesFits(e, Index(v, h.level), 512);
    if h.level < 4 {
      var q := v / e;
      assert Span(h.level + 1) == e;
      assert EntryStart(v, h.level) == e * q + 0;
      DivisionIs(e, q, 0);
    }
  }

  /** Two pages of a table share an entry exactly when the entry starts the same. */
  lemma SameEntry(h: Home, v: nat, w: nat)
    requires ProperHome(h) && Covers(h, v) && Covers(h, w)
    ensures Index(v, h.level) == Index(w, h.level) <==> EntryStart(v, h.level) == EntryStart(w, h.level)
    ensures EntryStart(v, h.level) != EntryStart(w, h.level) ==>
              || EntryStart(v, h.level) + EntrySize(h.level) <= EntryStart(w, h.level)
              || EntryStart(w, h.level) + EntrySize(h.level) <= EntryStart(v, h.level)
  {
    var e: int, i: int, j: int := EntrySize(h.level), Index(v, h.level), Index(w, h.level);
    IndexIs(e, h.first, v);
    IndexIs(e, h.first, w);
    assert j * e == i * e + e * (j - i);
    Times(e, j - i);
  }

  /** A lower table that covers a page lies inside the page's entry at any level above. */
  lemma LowerInside(h: Home, l: nat, w: nat)
    requires ProperHome(h) && Covers(h, w) && 1 <= l < h.level
    ensures EntryStart(w, l) <= h.first && h.first + Span(h.level) <= EntryStart(w, l) + EntrySize(l)
  {
    var m := if h.level == l + 1 then 1 else if h.level == l + 2 then 512 else 262_144;
    assert EntrySize(l) == Span(h.level) * m;
    BlockInside(Span(h.level), m, h.first, w);
  }

  // ------------------------------------------------------------------------- walk

  /** What a page of virtual memory leads to. */
  datatype Out = Out(page: int, device: bool)

  /** The descriptor for page v in table t at level l. */
  function Entry(mem: Memory, l: nat, t: int, v: nat): Desc
  {
    if t in mem && |mem[t]| == ENTRIES then mem[t][Index(v, l)] else Invalid
  }

  /** The walk from a table at a level: level 1 has no blocks and level 4 no tables. */
  function Walk(mem: Memory, l: nat, t: int, v: nat): Option<Out>
    decreases 4 - l
  {
    match Entry(mem, l, t, v)
    case Invalid => None
    case Table(a) => if l >= 4 then None else Walk(mem, l + 1, a, v)
    case Leaf(p, device) => if l == 1 then None else Some(Out(p + Into(v, l), device))
  }

  /** Whether v's entry at a level has no page of the range. */
  predicate EntryApart(w: nat, l: nat, v: nat, n: nat)
  {
    n == 0 || EntryStart(w, l) + EntrySize(l) <= v || v + n <= EntryStart(w, l)
  }

  /** Where page w outside a range leads after the range is filled: as before, unless
      an entry above it that was a block had to become a table. */
  function Survives(mem: Memory, l: nat, t: int, w: nat, v: nat, n: nat): Option<Out>
    decreases 4 - l
  {
    if EntryApart(w, l, v, n) then Walk(mem, l, t, w)
    else
      match Entry(mem, l, t, w)
      case Table(a) => if l >= 4 then None else Survives(mem, l + 1, a, w, v, n)
      case _ => None
  }

  /** Where page w must lead after pages v .. v + n are filled with those from b on. */
  function Expected(mem: Memory, l: nat, t: int, w: nat, v: nat, n: nat, b: int, device: bool): Option<Out>
  {
    if v <= w < v + n then Some(Out(b + (w - v), device)) else Survives(mem, l, t, w, v, n)
  }

  // ----------------------------------------------------------------------- frames

  /** The tables at a level and below that serve page w are as before. */
  ghost predicate SameAround(mem: Memory, mem': Memory, home: map<int, Home>, root: int, l: nat, w: nat)
  {
    forall t | t in mem && t in home && home[t].root == root && home[t].level >= l && Covers(home[t], w) ::
      t in mem' && mem'[t] == mem[t]
  }

  /** A table entry leads to a table that covers the page. */
  lemma EntryLeads(mem: Memory, home: map<int, Home>, t: int, w: nat)
    requires Rooted(mem, home) && t in mem && Covers(home[t], w) && home[t].level < 4
    ensures var d := Entry(mem, home[t].level, t, w);
            d.Table? ==>
              && d.addr in mem && home[d.addr] == ChildHome(home[t], Index(w, home[t].level))
              && home[d.addr].level == home[t].level + 1 && home[d.addr].root == home[t].root
              && Covers(home[d.addr], w)
  {
    hide Index, EntryStart, Span;
    EntryFacts(home[t], w);
    assert EntriesRooted(mem, home, t);
    assert PointsHome(home, mem[t][Index(w, home[t].level)], ChildHome(home[t], Index(w, home[t].level)));
  }

  /** A walk depends only on the tables that cover the page. */
  lemma {:induction false} WalkFrame(mem: Memory, mem': Memory, home: map<int, Home>, t: int, w: nat, v: nat, n: nat)
    requires Rooted(mem, home) && t in mem && Covers(home[t], w)
    requires SameAround(mem, mem', home, home[t].root, home[t].level, w)
    ensures Walk(mem', home[t].level, t, w) == Walk(mem, home[t].level, t, w)
    ensures Survives(mem', home[t].level, t, w, v, n) == Survives(mem, home[t].level, t, w, v, n)
    decreases 4 - home[t].level
  {
    hide Index, Into, EntryApart, Covers, Rooted;
    WalkFrameStep(mem, mem', home, t, w);
    var l := home[t].level;
    var d := Entry(mem, l, t, w);
    if d.Table? && l < 4 {
      EntryLeads(mem, home, t, w);
      WalkFrame(mem, mem', home, d.addr, w, v, n);
    }
  }

  lemma WalkFrameStep(mem: Memory, mem': Memory, home: map<int, Home>, t: int, w: nat)
    requires Rooted(mem, home) && t in mem && Covers(home[t], w)
    requires SameAround(mem, mem', home, home[t].root, home[t].level, w)
    ensures t in home && 1 <= home[t].level <= 4
    ensures Entry(mem', home[t].level, t, w) == Entry(mem, home[t].level, t, w)
    ensures SameAround(mem, mem', home, home[t].root, home[t].level + 1, w)
  {
    hide Index;
  }

  /** A range that grows by pages of other entries than w's leaves w alone. */
  lemma {:induction false} SurvivesClip(mem: Memory, l: nat, t: int, w: nat, v: nat, n: nat, v': nat, n': nat)
    requires SameApart(w, l, v, n, v', n')
    ensures Survives(mem, l, t, w, v, n) == Survives(mem, l, t, w, v', n')
    decreases 4 - l
  {
    hide Index, Into;
    SameApartBelow(w, l, v, n, v', n');
    var d := Entry(mem, l, t, w);
    if d.Table? && l < 4 { SurvivesClip(mem, l + 1, d.addr, w, v, n, v', n'); }
  }

  /** The two ranges meet w's entry at a level in the same pages. */
  ghost predicate SameApart(w: nat, l: nat, v: nat, n: nat, v': nat, n': nat)
  {
    forall x: nat | EntryStart(w, l) <= x < EntryStart(w, l) + EntrySize(l) :: InRange(x, v, n) <==> InRange(x, v', n')
  }

  predicate InRange(x: nat, v: nat, n: nat)
  {
    v <= x < v + n
  }

  lemma SameApartBelow(w: nat, l: nat, v: nat, n: nat, v': nat, n': nat)
    requires SameApart(w, l, v, n, v', n')
    ensures EntryApart(w, l, v, n) <==> EntryApart(w, l, v', n')
    ensures l < 4 ==> SameApart(w, l + 1, v, n, v', n')
  {
    ApartIff(w, l, v, n);
    ApartIff(w, l, v', n');
    if l < 4 { LowerEntry(w, l); }
  }

  lemma ApartIff(w: nat, l: nat, v: nat, n: nat)
    ensures EntryApart(w, l, v, n) <==>
              forall x: nat | EntryStart(w, l) <= x < EntryStart(w, l) + EntrySize(l) :: !InRange(x, v, n)
  {
    var s := EntryStart(w, l);
    if !EntryApart(w, l, v, n) {
      var x: nat := if v < s then s else v;
      assert InRange(x, v, n) && s <= x < s + EntrySize(l);
    }
  }

  /** A page's entry at the next level lies inside its entry. */
  lemma LowerEntry(w: nat, l: nat)
    ensures EntryStart(w, l) <= EntryStart(w, l + 1)
    ensures EntryStart(w, l + 1) + EntrySize(l + 1) <= EntryStart(w, l) + EntrySize(l)
  {
    var e := EntrySize(l + 1);
    var m := if EntrySize(l) == e then 1 else 512;
    assert EntrySize(l) == e * m;
    DivisionIs(e, w / e, 0);
    BlockInside(e, m, EntryStart(w, l + 1), w);
  }
}
