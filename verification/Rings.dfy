/** Circular doubly linked lists kept inside the listed blocks themselves: a head
    address (0 when empty) and the next and prev words of every linked node. */
module Rings {

  datatype Option<T> = None | Some(value: T)

  datatype Links = Links(head: int, next: map<int, int>, prev: map<int, int>) {

    predicate Has(b: int) { b in next }

    predicate Next(b: int, c: int) { b in next && next[b] == c }

    predicate Prev(b: int, c: int) { b in prev && prev[b] == c }
  }

  const EMPTY := Links(0, map[], map[])

  /** next and prev are mutually inverse permutations of the linked nodes. The
      nodes may form several cycles; the head, if any, is on one of them. */
  ghost predicate Consistent(k: Links)
  {
    && !k.Has(0)
    && (forall b :: k.Has(b) <==> b in k.prev)
    && (forall b, c :: k.Next(b, c) <==> k.Prev(c, b))
    && (k.head != 0 ==> k.Has(k.head))
  }

  // --------------------------------------------------------------- operations

  /** Link b between the tail and the head, or make it the head of an empty list. */
  function PushTail(k: Links, b: int): Links
    requires k.head != 0 ==> k.head in k.prev
  {
    if k.head == 0 then
      Links(b, k.next[b := b], k.prev[b := b])
    else
      var tail := k.prev[k.head];
      Links(k.head, k.next[b := k.head][tail := b], k.prev[b := tail][k.head := b])
  }

  /** Take b out by joining its neighbours and make h the head. */
  function Bypass(k: Links, b: int, h: int): Links
    requires b in k.next && b in k.prev
  {
    var n, p := k.next[b], k.prev[b];
    Links(h, (k.next - {b})[p := n], (k.prev - {b})[n := p])
  }

  /** What the page allocator does to take b out: a node that points at itself must
      be the head or the removal panics (None); removing the head of a longer
      list leaves head 0, because the node's next word is cleared before it is
      copied into the head. */
  function Unlink(k: Links, b: int): Option<Links>
    requires b in k.next && b in k.prev
  {
    if k.next[b] == b then
      if k.head == b then Some(Links(0, k.next - {b}, k.prev - {b})) else None
    else
      Some(Bypass(k, b, if k.head == b then 0 else k.head))
  }

  /** What its comment intends, and what the slab manager does: removing the head
      moves the head to the next node. */
  function UnlinkAdvance(k: Links, b: int): Links
    requires b in k.next && b in k.prev
  {
    if k.next[b] == b && k.prev[b] == b then
      Links(0, k.next - {b}, k.prev - {b})
    else
      Bypass(k, b, if k.head == b then k.next[b] else k.head)
  }

  lemma PushTailConsistent(k: Links, b: int)
    requires Consistent(k) && b != 0 && !k.Has(b)
    ensures var j := PushTail(k, b);
            Consistent(j) && j.head != 0 && forall c :: j.Has(c) <==> k.Has(c) || c == b
  {
    var j := PushTail(k, b);
    if k.head != 0 { assert k.Prev(k.head, k.prev[k.head]); }
    forall c, d
      ensures j.Next(c, d) <==> j.Prev(d, c)
    {
      assert k.Next(c, d) <==> k.Prev(d, c);
      assert k.Next(c, b) <==> k.Prev(b, c);
      assert k.Next(b, d) <==> k.Prev(d, b);
      if k.head != 0 {
        assert k.Next(k.prev[k.head], d) ==> d == k.head;
        assert k.Prev(k.head, c) ==> c == k.prev[k.head];
      }
    }
  }

  /** Joining the neighbours of b keeps the permutation; h must be 0 or still linked. */
  lemma BypassConsistent(k: Links, b: int, h: int)
    requires Consistent(k) && k.Has(b) && k.next[b] != b
    requires h != 0 ==> k.Has(h) && h != b
    ensures var j := Bypass(k, b, h);
            Consistent(j) && forall c :: j.Has(c) <==> k.Has(c) && c != b
  {
    var j := Bypass(k, b, h);
    var n, p := k.next[b], k.prev[b];
    assert k.Next(b, n) && k.Prev(b, p);
    assert k.Prev(n, b) && k.Next(p, b);
    forall c, d
      ensures j.Next(c, d) <==> j.Prev(d, c)
    {
      assert k.Next(c, d) <==> k.Prev(d, c);
      assert k.Next(p, d) ==> d == b;
      assert k.Prev(n, c) ==> c == b;
      assert k.Next(b, d) <==> k.Prev(d, b);
      assert k.Next(c, b) <==> k.Prev(b, c);
    }
  }

  lemma LoneConsistent(k: Links, b: int)
    requires Consistent(k) && k.Has(b) && k.next[b] == b
    ensures k.prev[b] == b
    ensures var j := Links(0, k.next - {b}, k.prev - {b});
            Consistent(j) && forall c :: j.Has(c) <==> k.Has(c) && c != b
  {
    var j := Links(0, k.next - {b}, k.prev - {b});
    assert k.Next(b, b) && k.Prev(b, b);
    forall c, d
      ensures j.Next(c, d) <==> j.Prev(d, c)
    {
      assert k.Next(c, d) <==> k.Prev(d, c);
      assert k.Next(b, d) <==> k.Prev(d, b);
      assert k.Next(c, b) <==> k.Prev(b, c);
    }
  }

  lemma UnlinkConsistent(k: Links, b: int)
    requires Consistent(k) && k.Has(b)
    ensures Unlink(k, b).None? <==> k.next[b] == b != k.head
    ensures Unlink(k, b).Some? ==>
              var j := Unlink(k, b).value;
              Consistent(j) && forall c :: j.Has(c) <==> k.Has(c) && c != b
  {
    if k.next[b] == b {
      LoneConsistent(k, b);
    } else {
      BypassConsistent(k, b, if k.head == b then 0 else k.head);
    }
  }

  lemma UnlinkAdvanceConsistent(k: Links, b: int)
    requires Consistent(k) && k.Has(b)
    requires k.next[b] == b ==> k.head == b
    ensures var j := UnlinkAdvance(k, b);
            Consistent(j) && forall c :: j.Has(c) <==> k.Has(c) && c != b
  {
    if k.next[b] == b {
      LoneConsistent(k, b);
    } else {
      assert k.Next(b, k.next[b]) && k.Prev(k.next[b], b);
      BypassConsistent(k, b, if k.head == b then k.next[b] else k.head);
    }
  }

  // ---------------------------------------------------------------- list order

  ghost predicate Distinct(s: seq<int>)
  {
    forall i, j | 0 <= i < j < |s| :: s[i] != s[j]
  }

  function After(s: seq<int>, i: nat): int
    requires i < |s|
  {
    if i + 1 < |s| then s[i + 1] else s[0]
  }

  function Before(s: seq<int>, i: nat): int
    requires i < |s|
  {
    s[if i > 0 then i - 1 else |s| - 1]
  }

  /** k is exactly the list s: walking next from the head visits s in order and
      returns to the head, and nothing else is linked. */
  ghost predicate IsList(k: Links, s: seq<int>)
  {
    && Consistent(k)
    && Distinct(s)
    && (forall b :: k.Has(b) <==> b in s)
    && k.head == (if s == [] then 0 else s[0])
    && (forall i | 0 <= i < |s| :: k.Next(s[i], After(s, i)))
  }

  function Without(s: seq<int>, i: nat): seq<int>
    requires i < |s|
  {
    s[..i] + s[i + 1..]
  }

  lemma WithoutMembers(s: seq<int>, i: nat)
    requires Distinct(s) && i < |s|
    ensures Distinct(Without(s, i))
    ensures forall x :: x in Without(s, i) <==> x in s && x != s[i]
  {
    var t := Without(s, i);
    forall x | x in s && x != s[i]
      ensures x in t
    {
      var m :| 0 <= m < |s| && s[m] == x;
      assert t[if m < i then m else m - 1] == x;
    }
  }

  /** The tail of a list is the node before its head. */
  lemma TailOf(k: Links, s: seq<int>)
    requires IsList(k, s) && s != []
    ensures k.head in k.prev && k.prev[k.head] == s[|s| - 1]
  {
    assert k.Next(s[|s| - 1], After(s, |s| - 1));
    assert k.Prev(s[0], s[|s| - 1]);
  }

  /** A node of a list points at itself exactly when it is the only one. */
  lemma LoneNode(k: Links, s: seq<int>, i: nat)
    requires IsList(k, s) && i < |s|
    ensures k.Has(s[i]) && s[i] in k.prev
    ensures k.next[s[i]] == s[i] <==> |s| == 1
    ensures k.prev[s[i]] == Before(s, i)
  {
    var p := if i > 0 then i - 1 else |s| - 1;
    assert s[i] in s;
    assert k.Next(s[i], After(s, i));
    assert k.Next(s[p], After(s, p)) && After(s, p) == s[i];
    assert k.Prev(s[i], s[p]);
  }

  /** Adding to the tail appends. */
  lemma PushTailAppends(k: Links, s: seq<int>, b: int)
    requires IsList(k, s) && b != 0 && b !in s
    ensures k.head != 0 ==> k.head in k.prev
    ensures IsList(PushTail(k, b), s + [b])
  {
    PushTailConsistent(k, b);
    var t, j := s + [b], PushTail(k, b);
    if s != [] { TailOf(k, s); }
    forall i | 0 <= i < |t|
      ensures j.Next(t[i], After(t, i))
    {
      if i + 1 < |s| {
        assert k.Next(s[i], After(s, i));
      }
    }
  }

  /** Moving the head to the successor removes exactly the i-th node. */
  lemma UnlinkAdvanceRemoves(k: Links, s: seq<int>, i: nat)
    requires IsList(k, s) && i < |s|
    ensures s[i] in k.next && s[i] in k.prev
    ensures IsList(UnlinkAdvance(k, s[i]), Without(s, i))
  {
    LoneNode(k, s, i);
    LoneNode(k, s, 0);
    assert k.Has(k.head);
    UnlinkAdvanceConsistent(k, s[i]);
    WithoutMembers(s, i);
    if |s| > 1 { BypassedOrder(k, s, i); }
  }

  /** Successors after a removal: only the removed node's predecessor changes. */
  lemma WithoutAfter(s: seq<int>, i: nat, m: nat)
    requires i < |s| && |s| > 1 && m < |s| - 1 && Distinct(s)
    ensures var o := if m < i then m else m + 1;
            && Without(s, i)[m] == s[o] != s[i]
            && After(Without(s, i), m) == if s[o] == Before(s, i) then After(s, i) else After(s, o)
  {
    var t, o := Without(s, i), if m < i then m else m + 1;
    assert forall k | 0 <= k < |t| :: t[k] == s[if k < i then k else k + 1];
  }

  lemma BypassAt(k: Links, b: int, h: int, c: int)
    requires b in k.next && b in k.prev && k.Has(c) && c != b
    ensures Bypass(k, b, h).Next(c, if c == k.prev[b] then k.next[b] else k.next[c])
  {
  }

  lemma BypassedNext(k: Links, s: seq<int>, i: nat, m: nat, h: int)
    requires IsList(k, s) && i < |s| && |s| > 1 && m < |s| - 1
    requires s[i] in k.next && s[i] in k.prev
    ensures Bypass(k, s[i], h).Next(Without(s, i)[m], After(Without(s, i), m))
  {
    LoneNode(k, s, i);
    WithoutAfter(s, i, m);
    var o := if m < i then m else m + 1;
    assert k.Next(s[o], After(s, o));
    assert k.Next(s[i], After(s, i));
    BypassAt(k, s[i], h, s[o]);
  }

  lemma BypassedOrder(k: Links, s: seq<int>, i: nat)
    requires IsList(k, s) && i < |s| && |s| > 1
    requires s[i] in k.next && s[i] in k.prev
    ensures var j := Bypass(k, s[i], if i == 0 then After(s, 0) else k.head);
            var t := Without(s, i);
            j.head == t[0] && forall m | 0 <= m < |t| :: j.Next(t[m], After(t, m))
  {
    var h := if i == 0 then After(s, 0) else k.head;
    forall m | 0 <= m < |s| - 1
      ensures Bypass(k, s[i], h).Next(Without(s, i)[m], After(Without(s, i), m))
    {
      BypassedNext(k, s, i, m, h);
    }
  }

  /** On a well-formed list the page allocator's removal does what its comment
      intends exactly when the node is not the head of a longer list. */
  lemma UnlinkMeetsIntentIff(k: Links, s: seq<int>, i: nat)
    requires IsList(k, s) && i < |s|
    ensures s[i] in k.next && s[i] in k.prev && Unlink(k, s[i]).Some?
    ensures IsList(Unlink(k, s[i]).value, Without(s, i)) <==> !(k.head == s[i] && k.next[s[i]] != s[i])
  {
    UnlinkAdvanceRemoves(k, s, i);
    LoneNode(k, s, i);
    if k.head == s[i] && |s| > 1 {
      assert Without(s, i)[0] == s[1] && s[1] in s;
      assert Unlink(k, s[i]).value.head == 0;
    }
  }
}
