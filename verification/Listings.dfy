/** The list an ORDER BY returns: every element of a finite set once, in a strict total order. */
module Listings {

  type Order = (string, string) -> bool

  ghost predicate StrictTotal(lt: Order, s: set<string>) {
    && (forall a | a in s :: !lt(a, a))
    && (forall a, b | a in s && b in s :: a == b || lt(a, b) || lt(b, a))
    && (forall a, b, c | a in s && b in s && c in s && lt(a, b) && lt(b, c) :: lt(a, c))
  }

  ghost predicate Sorted(lt: Order, l: seq<string>) {
    forall i, j | 0 <= i < j < |l| :: lt(l[i], l[j])
  }

  lemma SortedAt(lt: Order, l: seq<string>, i: nat, j: nat)
    requires Sorted(lt, l) && i < j < |l|
    ensures lt(l[i], l[j])
  {
  }

  ghost predicate IsListing(lt: Order, s: set<string>, l: seq<string>) {
    && |l| == |s|
    && (forall x :: x in l <==> x in s)
    && Sorted(lt, l)
  }

  ghost predicate IsLeast(lt: Order, s: set<string>, m: string) {
    m in s && forall x | x in s && x != m :: lt(m, x)
  }

  lemma {:induction false} LeastExists(lt: Order, s: set<string>)
    requires s != {} && StrictTotal(lt, s)
    ensures exists m :: IsLeast(lt, s, m)
    decreases |s|
  {
    var y :| y in s;
    var rest := s - {y};
    if rest == {} {
      assert s == {y};
      assert IsLeast(lt, s, y);
    } else {
      LeastExists(lt, rest);
      var z :| IsLeast(lt, rest, z);
      if lt(y, z) {
        assert IsLeast(lt, s, y);
      } else {
        assert IsLeast(lt, s, z);
      }
    }
  }

  function Least(lt: Order, s: set<string>): (m: string)
    requires s != {} && StrictTotal(lt, s)
    ensures IsLeast(lt, s, m)
  {
    LeastExists(lt, s);
    assert exists m :: m in s && forall x | x in s && x != m :: lt(m, x) by {
      var w :| IsLeast(lt, s, w);
    }
    var m :| m in s && forall x | x in s && x != m :: lt(m, x);
    m
  }

  function Listing(lt: Order, s: set<string>): (l: seq<string>)
    requires StrictTotal(lt, s)
    ensures IsListing(lt, s, l)
    decreases |s|
  {
    if s == {} then []
    else
      var m := Least(lt, s);
      var rest := Listing(lt, s - {m});
      assert forall x | x in rest :: x in s - {m};
      [m] + rest
  }

  /** A set has one listing, and only the order among its own elements decides it. */
  lemma {:induction false} ListingUnique(lt: Order, lt': Order, s: set<string>, l: seq<string>, l': seq<string>)
    requires StrictTotal(lt, s)
    requires forall a, b | a in s && b in s :: lt(a, b) == lt'(a, b)
    requires IsListing(lt, s, l) && IsListing(lt', s, l')
    ensures l == l'
    decreases |l|
  {
    assert StrictTotal(lt', s);
    if l == [] {
      assert s == {};
    } else {
      assert l[0] in l && l[0] in s;
      HeadIsLeast(lt, s, l);
      HeadIsLeast(lt', s, l');
      var m := l[0];
      TailListing(lt, s, l);
      TailListing(lt', s, l');
      ListingUnique(lt, lt', s - {m}, l[1..], l'[1..]);
      assert l == [m] + l[1..] && l' == [m] + l'[1..];
    }
  }

  lemma HeadIsLeast(lt: Order, s: set<string>, l: seq<string>)
    requires s != {} && IsListing(lt, s, l)
    ensures l != [] && IsLeast(lt, s, l[0])
  {
    var y :| y in s;
    assert y in l;
    assert l[0] in l;
    forall x | x in s && x != l[0] ensures lt(l[0], x) {
      assert x in l;
      var k :| 0 <= k < |l| && l[k] == x;
    }
  }

  lemma TailListing(lt: Order, s: set<string>, l: seq<string>)
    requires StrictTotal(lt, s) && l != [] && IsListing(lt, s, l)
    ensures IsListing(lt, s - {l[0]}, l[1..])
  {
    forall x ensures x in l[1..] <==> x in s - {l[0]} {
      if x in l[1..] {
        var k :| 0 <= k < |l[1..]| && l[1..][k] == x;
        assert l[k + 1] == x && lt(l[0], l[k + 1]);
        assert x in l;
      }
      if x in s && x != l[0] {
        assert x in l;
        var k :| 0 <= k < |l| && l[k] == x;
        assert l[1..][k - 1] == x;
      }
    }
  }

  function Reversed(l: seq<string>): (r: seq<string>)
    ensures |r| == |l|
    ensures forall i | 0 <= i < |l| :: r[i] == l[|l| - 1 - i]
  {
    seq(|l|, i requires 0 <= i < |l| => l[|l| - 1 - i])
  }

  lemma ReversedMembers(l: seq<string>, x: string)
    ensures x in Reversed(l) <==> x in l
  {
    var r := Reversed(l);
    if x in r {
      var k :| 0 <= k < |r| && r[k] == x;
      assert l[|l| - 1 - k] == x;
    }
    if x in l {
      var k :| 0 <= k < |l| && l[k] == x;
      assert r[|l| - 1 - k] == x;
    }
  }

  lemma ReversedIsListing(lt: Order, gt: Order, s: set<string>, l: seq<string>)
    requires IsListing(lt, s, l)
    requires forall a, b | a in s && b in s :: gt(a, b) == lt(b, a)
    ensures IsListing(gt, s, Reversed(l))
  {
    var r := Reversed(l);
    forall x ensures x in r <==> x in s { ReversedMembers(l, x); }
    forall i, j | 0 <= i < j < |r| ensures gt(r[i], r[j]) {
      assert r[i] in r && r[j] in r;
      assert lt(l[|l| - 1 - j], l[|l| - 1 - i]);
    }
  }

  /** Listing by the opposite order gives the same list read backwards. */
  lemma ListingReversed(lt: Order, gt: Order, s: set<string>)
    requires StrictTotal(lt, s) && StrictTotal(gt, s)
    requires forall a, b | a in s && b in s :: gt(a, b) == lt(b, a)
    ensures Listing(gt, s) == Reversed(Listing(lt, s))
  {
    ReversedIsListing(lt, gt, s, Listing(lt, s));
    ListingUnique(gt, gt, s, Listing(gt, s), Reversed(Listing(lt, s)));
  }
}
