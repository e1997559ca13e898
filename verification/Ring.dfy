/** The hash ring of load_balancer.c: who owns a hash, and how that changes
    when a server joins or leaves. */
module Ring {
  import opened Wrappers
  import opened Hashing

  /** What the ring knows of a server: its id and the hashes of its labels. */
  datatype Peer = Peer(id: nat, hashes: seq<Word>)

  /** A label: the server's place in the list, and the replica index. */
  datatype Place = Place(server: nat, replica: nat)

  predicate At(ring: seq<Peer>, p: Place) {
    p.server < |ring| && p.replica < |ring[p.server].hashes|
  }

  function HashAt(ring: seq<Peer>, p: Place): Word
    requires At(ring, p)
  {
    ring[p.server].hashes[p.replica]
  }

  ghost function Ids(ring: seq<Peer>): set<nat> {
    set i | 0 <= i < |ring| :: ring[i].id
  }

  predicate Live(ring: seq<Peer>) {
    |ring| > 0 && forall i :: 0 <= i < |ring| ==> |ring[i].hashes| > 0
  }

  ghost predicate DistinctHashes(ring: seq<Peer>) {
    forall p, q :: At(ring, p) && At(ring, q) && HashAt(ring, p) == HashAt(ring, q) ==> p == q
  }

  /** How far clockwise from h the point x lies, up to a constant; a point equal
      to h is a full turn away. */
  function Rank(h: Word, x: Word): nat {
    if h < x then x else x + WORDS
  }

  /** p is met before q going clockwise from h; equal hashes are ordered by server
      id, then by position. */
  predicate Before(ring: seq<Peer>, h: Word, p: Place, q: Place)
    requires At(ring, p) && At(ring, q)
  {
    var a, b := Rank(h, HashAt(ring, p)), Rank(h, HashAt(ring, q));
    a < b || (a == b && PositionLess(ring, p, q))
  }

  predicate PositionLess(ring: seq<Peer>, p: Place, q: Place)
    requires At(ring, p) && At(ring, q)
  {
    var i, j := ring[p.server].id, ring[q.server].id;
    i < j || (i == j && Earlier(p, q.server, q.replica))
  }

  /** p comes before label r of server s in the order the loops visit labels. */
  predicate Earlier(p: Place, s: nat, r: nat) {
    p.server < s || (p.server == s && p.replica < r)
  }

  /** p is the first label met going clockwise from h. */
  ghost predicate IsNext(ring: seq<Peer>, h: Word, p: Place) {
    At(ring, p) && forall q :: At(ring, q) && q != p ==> Before(ring, h, p, q)
  }

  /** The first label met among those visited before label r of server s. */
  ghost function Scan(ring: seq<Peer>, h: Word, s: nat, r: nat): (best: Option<Place>)
    requires (s < |ring| && r <= |ring[s].hashes|) || (s == |ring| && r == 0)
    ensures best.None? ==> forall q :: At(ring, q) ==> !Earlier(q, s, r)
    ensures best.Some? ==> At(ring, best.value) && Earlier(best.value, s, r)
    ensures best.Some? ==>
              forall q :: At(ring, q) && Earlier(q, s, r) && q != best.value ==> Before(ring, h, best.value, q)
    decreases s, r
  {
    if r > 0 then
      var p, c := Scan(ring, h, s, r - 1), Place(s, r - 1);
      if p.None? || Before(ring, h, c, p.value) then Some(c) else p
    else if s > 0 then
      Scan(ring, h, s - 1, |ring[s - 1].hashes|)
    else
      None
  }

  /** The label that owns hash h. */
  ghost function Next(ring: seq<Peer>, h: Word): (p: Place)
    requires Live(ring)
    ensures IsNext(ring, h, p)
  {
    assert At(ring, Place(0, 0)) && Earlier(Place(0, 0), |ring|, 0);
    Scan(ring, h, |ring|, 0).value
  }

  lemma NextUnique(ring: seq<Peer>, h: Word, p: Place)
    requires Live(ring) && IsNext(ring, h, p)
    ensures Next(ring, h) == p
  {
    var q := Next(ring, h);
    assert q == p || Before(ring, h, p, q);
  }

  /** On a ring without equal hashes the least rank decides alone. */
  lemma LeastRankIsNext(ring: seq<Peer>, h: Word, p: Place)
    requires Live(ring) && DistinctHashes(ring) && At(ring, p)
    requires forall q :: At(ring, q) ==> Rank(h, HashAt(ring, p)) <= Rank(h, HashAt(ring, q))
    ensures Next(ring, h) == p
  {
    forall q | At(ring, q) && q != p
      ensures Before(ring, h, p, q)
    {
      assert HashAt(ring, p) != HashAt(ring, q);
    }
    NextUnique(ring, h, p);
  }

  // What the search promises ---------------------------------------------------

  /** Order of labels on the ring cut open at zero: by hash, then by server id,
      then by position. */
  predicate LabelLess(ring: seq<Peer>, p: Place, q: Place)
    requires At(ring, p) && At(ring, q)
  {
    HashAt(ring, p) < HashAt(ring, q) ||
    (HashAt(ring, p) == HashAt(ring, q) && PositionLess(ring, p, q))
  }

  /** The owner of h is the least label strictly above h, or the least label of
      all when none lies above. */
  lemma NextIsSuccessorOrLeast(ring: seq<Peer>, h: Word, p: Place)
    requires Live(ring) && At(ring, p)
    ensures (Next(ring, h) == p) <==>
            if exists q :: At(ring, q) && HashAt(ring, q) > h
            then HashAt(ring, p) > h &&
                 forall q :: At(ring, q) && HashAt(ring, q) > h && q != p ==> LabelLess(ring, p, q)
            else forall q :: At(ring, q) && q != p ==> LabelLess(ring, p, q)
  {
    var n := Next(ring, h);
    if exists q :: At(ring, q) && HashAt(ring, q) > h {
      var q :| At(ring, q) && HashAt(ring, q) > h;
      assert HashAt(ring, n) > h by {
        assert q == n || Before(ring, h, n, q);
      }
      forall q | At(ring, q) && HashAt(ring, q) > h && q != n
        ensures LabelLess(ring, n, q)
      {
        assert Before(ring, h, n, q);
      }
    } else {
      forall q | At(ring, q) && q != n
        ensures LabelLess(ring, n, q)
      {
        assert Before(ring, h, n, q);
      }
    }
  }

  /** The owner does not depend on the order of the server list. */
  lemma NextIgnoresListOrder(r1: seq<Peer>, r2: seq<Peer>, h: Word)
    requires Live(r1) && Live(r2)
    requires forall i, j :: 0 <= i < j < |r1| ==> r1[i].id != r1[j].id
    requires forall i, j :: 0 <= i < j < |r2| ==> r2[i].id != r2[j].id
    requires forall x :: x in r1 <==> x in r2
    ensures r1[Next(r1, h).server] == r2[Next(r2, h).server]
    ensures Next(r1, h).replica == Next(r2, h).replica
  {
    var p := Next(r1, h);
    var x := r1[p.server];
    assert x in r2;
    var j :| 0 <= j < |r2| && r2[j] == x;
    var p2 := Place(j, p.replica);
    forall q2 | At(r2, q2) && q2 != p2
      ensures Before(r2, h, p2, q2)
    {
      var y := r2[q2.server];
      assert y in r1;
      var i :| 0 <= i < |r1| && r1[i] == y;
      var q := Place(i, q2.replica);
      assert At(r1, q) && q != p;
      assert Before(r1, h, p, q);
      assert x.id == y.id ==> i == p.server && j == q2.server;
    }
    NextUnique(r2, h, p2);
  }

  // A server joins -------------------------------------------------------------

  /** Label L of a joining server cuts hash h off from its present owner. */
  ghost predicate Captures(ring: seq<Peer>, h: Word, L: Word)
    requires Live(ring)
  {
    Rank(h, L) < Rank(h, HashAt(ring, Next(ring, h)))
  }

  /** One of the first k labels of the joining server does. */
  ghost predicate Captured(ring: seq<Peer>, h: Word, labels: seq<Word>, k: nat)
    requires Live(ring) && k <= |labels|
  {
    exists j :: 0 <= j < k && Captures(ring, h, labels[j])
  }

  /** The test of loader_add_server at lines 153-156, 171-174 and 189-191: the new
      label hash and server id, those of the next label, and a document's hash. */
  predicate Moves(newHash: Word, newId: nat, nextHash: Word, nextId: nat, h: Word) {
    (newHash < nextHash && (newHash > h || nextHash < h)) ||
    (newHash > nextHash && newHash > h && h > nextHash) ||
    (newHash == nextHash && newId < nextId)
  }

  /** The one label of a single-label ring sits exactly on h. */
  ghost predicate OnlyLabelAt(ring: seq<Peer>, h: Word) {
    |ring| == 1 && ring[0].hashes == [h]
  }

  /** A label that is a full turn away from h and still first is the only one. */
  lemma OwnerAtHash(ring: seq<Peer>, h: Word)
    requires Live(ring) && DistinctHashes(ring)
    ensures HashAt(ring, Next(ring, h)) == h <==> OnlyLabelAt(ring, h)
  {
    var n := Next(ring, h);
    assert At(ring, Place(0, 0));
    assert |ring| > 1 ==> At(ring, Place(1, 0));
    assert |ring[0].hashes| > 1 ==> At(ring, Place(0, 1));
    if HashAt(ring, n) == h {
      forall q | At(ring, q)
        ensures q == n
      {
        assert q == n || Before(ring, h, n, q);
        assert HashAt(ring, q) == HashAt(ring, n) ==> q == n;
      }
    }
  }

  /** The test of the code, made against the old ring and only on documents filed
      under the next label, picks exactly the hashes that the new label captures,
      save for a hash on the only label of a single-label ring. */
  lemma MovesIffCaptured(ring: seq<Peer>, h: Word, L: Word, newId: nat)
    requires Live(ring) && DistinctHashes(ring)
    requires forall q :: At(ring, q) ==> HashAt(ring, q) != L
    ensures var n := Next(ring, L);
            (Next(ring, h) == n && Moves(L, newId, HashAt(ring, n), ring[n.server].id, h))
            <==> Captures(ring, h, L) && !OnlyLabelAt(ring, h)
  {
    var n, o := Next(ring, L), Next(ring, h);
    OwnerAtHash(ring, h);
    OwnerAtHash(ring, L);
    assert o == n || Before(ring, L, n, o);
    assert o == n || Before(ring, h, o, n);
    assert o != n ==> HashAt(ring, o) != HashAt(ring, n);
  }

  /** Between two labels with equal hashes the test goes by server id, like the search: of
      two servers on the same point every hash moves exactly if the search then finds the
      newcomer. */
  lemma MovesOnTie(x: Word, newId: nat, nextId: nat, h: Word)
    requires newId != nextId
    ensures Moves(x, newId, x, nextId, h) <==> Next([Peer(newId, [x]), Peer(nextId, [x])], h) == Place(0, 0)
  {
    var ring, p, q := [Peer(newId, [x]), Peer(nextId, [x])], Place(0, 0), Place(1, 0);
    assert At(ring, p) && At(ring, q) && HashAt(ring, p) == HashAt(ring, q) == x;
    assert if newId < nextId then Before(ring, h, p, q) else Before(ring, h, q, p);
    NextUnique(ring, h, if newId < nextId then p else q);
  }

  lemma FirstOfTail(ring: seq<Peer>, peer: Peer, h: Word, q: Place)
    requires Live(ring) && At([peer] + ring, q)
    ensures q.server > 0 ==> Rank(h, HashAt(ring, Next(ring, h))) <= Rank(h, HashAt([peer] + ring, q))
  {
    if q.server > 0 {
      var back, o := Place(q.server - 1, q.replica), Next(ring, h);
      assert At(ring, back) && HashAt(ring, back) == HashAt([peer] + ring, q);
      assert back == o || Before(ring, h, o, back);
    }
  }

  /** With server `peer` put at the head of the list, a captured hash belongs to it
      and every other hash keeps its owner: no document changes hands between two
      servers that both stay. */
  lemma NextAfterJoin(ring: seq<Peer>, peer: Peer, h: Word)
    requires Live(ring) && |peer.hashes| > 0
    requires DistinctHashes([peer] + ring)
    ensures Live([peer] + ring)
    ensures var n, o := Next([peer] + ring, h), Next(ring, h);
            if Captured(ring, h, peer.hashes, |peer.hashes|)
            then n.server == 0
            else n == Place(o.server + 1, o.replica)
  {
    var all := [peer] + ring;
    var n, o := Next(all, h), Next(ring, h);
    var o' := Place(o.server + 1, o.replica);
    assert At(all, o') && HashAt(all, o') == HashAt(ring, o);
    if Captured(ring, h, peer.hashes, |peer.hashes|) {
      var j :| 0 <= j < |peer.hashes| && Captures(ring, h, peer.hashes[j]);
      assert At(all, Place(0, j)) && HashAt(all, Place(0, j)) == peer.hashes[j];
      assert n == Place(0, j) || Before(all, h, n, Place(0, j));
      FirstOfTail(ring, peer, h, n);
    } else {
      forall q | At(all, q)
        ensures Rank(h, HashAt(all, o')) <= Rank(h, HashAt(all, q))
      {
        if q.server == 0 {
          assert !Captures(ring, h, peer.hashes[q.replica]);
        }
        FirstOfTail(ring, peer, h, q);
      }
      LeastRankIsNext(all, h, o');
    }
  }

  lemma DistinctTail(peer: Peer, ring: seq<Peer>)
    requires DistinctHashes([peer] + ring)
    ensures DistinctHashes(ring)
    ensures forall q, j :: At(ring, q) && 0 <= j < |peer.hashes| ==> HashAt(ring, q) != peer.hashes[j]
  {
    var all := [peer] + ring;
    forall p, q | At(ring, p) && At(ring, q) && HashAt(ring, p) == HashAt(ring, q)
      ensures p == q
    {
      var p', q' := Place(p.server + 1, p.replica), Place(q.server + 1, q.replica);
      assert At(all, p') && At(all, q') && HashAt(all, p') == HashAt(all, q');
    }
    forall q, j | At(ring, q) && 0 <= j < |peer.hashes|
      ensures HashAt(ring, q) != peer.hashes[j]
    {
      var q', p := Place(q.server + 1, q.replica), Place(0, j);
      assert At(all, p) && At(all, q') && HashAt(all, q') == HashAt(ring, q);
    }
  }

  // A server leaves ------------------------------------------------------------

  function Without<T>(s: seq<T>, k: nat): (r: seq<T>)
    requires k < |s|
    ensures |r| == |s| - 1
    ensures forall i :: 0 <= i < |r| ==> r[i] == s[if i < k then i else i + 1]
  {
    s[..k] + s[k + 1..]
  }

  /** Where list position i goes when position k is unlinked. */
  function Shift(i: nat, k: nat): nat {
    if i < k || i == 0 then i else i - 1
  }

  lemma DistinctWithout(ring: seq<Peer>, k: nat)
    requires k < |ring| && DistinctHashes(ring)
    ensures DistinctHashes(Without(ring, k))
  {
    var rest := Without(ring, k);
    forall p, q | At(rest, p) && At(rest, q) && HashAt(rest, p) == HashAt(rest, q)
      ensures p == q
    {
      var p' := Place(if p.server < k then p.server else p.server + 1, p.replica);
      var q' := Place(if q.server < k then q.server else q.server + 1, q.replica);
      assert At(ring, p') && At(ring, q') && HashAt(ring, p') == HashAt(ring, q');
    }
  }

  /** When server k leaves, a hash owned by another server keeps its owner, and one
      owned by k goes where the hash of k's owning label goes: routing a document by
      its old label agrees with routing it by its own hash. */
  lemma NextAfterLeave(ring: seq<Peer>, k: nat, h: Word)
    requires Live(ring) && DistinctHashes(ring) && k < |ring| && |ring| > 1
    ensures Live(Without(ring, k))
    ensures var o := Next(ring, h);
            Next(Without(ring, k), h) ==
            if o.server == k then Next(Without(ring, k), HashAt(ring, o)) else Place(Shift(o.server, k), o.replica)
  {
    var rest := Without(ring, k);
    DistinctWithout(ring, k);
    var o := Next(ring, h);
    var target := if o.server == k then Next(rest, HashAt(ring, o)) else Place(Shift(o.server, k), o.replica);
    forall q | At(rest, q)
      ensures Rank(h, HashAt(rest, target)) <= Rank(h, HashAt(rest, q))
    {
      var q', t' := Lift(q, k), Lift(target, k);
      assert At(ring, q') && HashAt(ring, q') == HashAt(rest, q);
      assert At(ring, t') && HashAt(ring, t') == HashAt(rest, target);
      assert q' == o || Before(ring, h, o, q');
      assert t' == o || Before(ring, h, o, t');
      if o.server == k {
        assert HashAt(ring, q') != HashAt(ring, o);
        assert HashAt(ring, t') != HashAt(ring, o);
        assert q == target || Before(rest, HashAt(ring, o), target, q);
      }
    }
    LeastRankIsNext(rest, h, target);
  }

  /** The place in the full list of a place in the list without server k. */
  function Lift(p: Place, k: nat): Place {
    Place(if p.server < k then p.server else p.server + 1, p.replica)
  }

  // The server's own lookups ---------------------------------------------------

  /** The label a server picks for h among its own: the ring search on a ring of
      that server alone. */
  ghost function LocalNext(hashes: seq<Word>, h: Word): (r: nat)
    requires |hashes| > 0
    ensures r < |hashes|
    ensures forall j :: 0 <= j < |hashes| && j != r ==>
              Rank(h, hashes[r]) < Rank(h, hashes[j]) || (hashes[r] == hashes[j] && r < j)
  {
    var alone := [Peer(0, hashes)];
    var p := Next(alone, h);
    assert p.server == 0;
    assert forall j :: 0 <= j < |hashes| ==> At(alone, Place(0, j)) && HashAt(alone, Place(0, j)) == hashes[j];
    assert forall j :: 0 <= j < |hashes| && j != p.replica ==> Before(alone, h, p, Place(0, j));
    p.replica
  }

  /** The server's own lookup agrees with the ring on every hash the server owns. */
  lemma LocalAgreesWithRing(ring: seq<Peer>, h: Word)
    requires Live(ring)
    ensures var o := Next(ring, h); LocalNext(ring[o.server].hashes, h) == o.replica
  {
    var o := Next(ring, h);
    var r := LocalNext(ring[o.server].hashes, h);
    var p := Place(o.server, r);
    assert At(ring, p) && (p == o || Before(ring, h, o, p));
  }
}
