/** Redis sorted sets: members with scores, listed from the highest score down. */
module SortedSet {
  import opened Model

  type ZSet = map<Id, int>

  /** ZREVRANGE order: higher score first, equal scores by member. */
  predicate Ahead(z: ZSet, a: Id, b: Id)
    requires a in z && b in z
  {
    z[a] > z[b] || (z[a] == z[b] && a >= b)
  }

  ghost predicate IsHead(z: ZSet, a: Id) {
    a in z && forall b | b in z :: Ahead(z, a, b)
  }

  lemma HeadExists(z: ZSet)
    requires z != map[]
    ensures exists a :: IsHead(z, a)
    decreases |z|
  {
    assert z.Keys != {};
    var k :| k in z;
    var rest := z - {k};
    assert forall b | b in z :: b == k || b in rest;
    if rest == map[] {
      assert IsHead(z, k);
    } else {
      HeadExists(rest);
      var a :| IsHead(rest, a);
      if Ahead(z, k, a) { assert IsHead(z, k); } else { assert IsHead(z, a); }
    }
  }

  /** The member ZREVRANGE returns first. */
  ghost function Head(z: ZSet): (a: Id)
    requires z != map[]
    ensures IsHead(z, a)
  {
    HeadExists(z);
    var a :| IsHead(z, a); a
  }

  /** The whole set in ZREVRANGE order. */
  ghost function RevRange(z: ZSet): (r: seq<Id>)
    ensures forall a :: a in r <==> a in z
    ensures |r| == |z|
    decreases |z|
  {
    if z == map[] then []
    else
      var a := Head(z);
      var rest := RevRange(z - {a});
      assert z.Keys == (z - {a}).Keys + {a};
      [a] + rest
  }

  predicate Descending(z: ZSet, r: seq<Id>) {
    && (forall i | 0 <= i < |r| :: r[i] in z)
    && (forall i, j | 0 <= i < j < |r| :: r[i] != r[j] && Ahead(z, r[i], r[j]))
  }

  lemma DescendingCons(z: ZSet, a: Id, r: seq<Id>)
    requires IsHead(z, a) && Descending(z - {a}, r)
    ensures Descending(z, [a] + r)
  {
    var all := [a] + r;
    forall i, j | 0 <= i < j < |all| ensures all[i] != all[j] && Ahead(z, all[i], all[j]) {
      assert all[j] == r[j - 1] && r[j - 1] in r;
      if i > 0 { assert all[i] == r[i - 1]; }
    }
  }

  /** RevRange lists every member once, from the highest score down, and equal scores from the greatest member down:
      it is the only such listing. */
  lemma {:induction false} RevRangeSorted(z: ZSet)
    ensures Descending(z, RevRange(z))
    ensures var r := RevRange(z); forall i, j | 0 <= i < j < |r| ::
      r[i] in z && r[j] in z && (z[r[i]] > z[r[j]] || (z[r[i]] == z[r[j]] && r[i] > r[j]))
    decreases |z|
  {
    if z == map[] {
    } else {
      var a := Head(z);
      RevRangeSorted(z - {a});
      DescendingCons(z, a, RevRange(z - {a}));
    }
  }
}
