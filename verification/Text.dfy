/**
 * Byte strings and text compared position by position: the order of PostgreSQL's "C" collation,
 * which is the only order the sort keys and the rekey walk rely on.
 */
module Text {

  type Byte = n: int | 0 <= n < 256

  function Codes(s: string): (codes: seq<int>)
    ensures |codes| == |s|
    ensures forall i | 0 <= i < |s| :: codes[i] == s[i] as int
  {
    seq(|s|, i requires 0 <= i < |s| => s[i] as int)
  }

  predicate LexLess(a: seq<int>, b: seq<int>) {
    |b| > 0 && (|a| == 0 || a[0] < b[0] || (a[0] == b[0] && LexLess(a[1..], b[1..])))
  }

  predicate TextLess(a: string, b: string) {
    LexLess(Codes(a), Codes(b))
  }

  lemma {:induction false} LexIrreflexive(a: seq<int>)
    ensures !LexLess(a, a)
  {
    if a != [] { LexIrreflexive(a[1..]); }
  }

  lemma {:induction false} LexConnected(a: seq<int>, b: seq<int>)
    ensures a == b || LexLess(a, b) || LexLess(b, a)
  {
    if a != [] && b != [] && a[0] == b[0] {
      LexConnected(a[1..], b[1..]);
      assert a == [a[0]] + a[1..] && b == [b[0]] + b[1..];
    }
  }

  lemma {:induction false} LexTransitive(a: seq<int>, b: seq<int>, c: seq<int>)
    requires LexLess(a, b) && LexLess(b, c)
    ensures LexLess(a, c)
  {
    if a != [] && a[0] == b[0] == c[0] {
      LexTransitive(a[1..], b[1..], c[1..]);
    }
  }

  lemma LexAsymmetric(a: seq<int>, b: seq<int>)
    requires LexLess(a, b)
    ensures !LexLess(b, a)
  {
    if LexLess(b, a) {
      LexTransitive(a, b, a);
      LexIrreflexive(a);
    }
  }

  /** A common prefix never decides the order. */
  lemma {:induction false} LexCommonPrefix(p: seq<int>, a: seq<int>, b: seq<int>)
    ensures LexLess(p + a, p + b) <==> LexLess(a, b)
  {
    if p == [] {
      assert p + a == a && p + b == b;
    } else {
      LexCommonPrefix(p[1..], a, b);
      assert (p + a)[1..] == p[1..] + a && (p + b)[1..] == p[1..] + b;
    }
  }

  lemma CodesInjective(a: string, b: string)
    ensures Codes(a) == Codes(b) <==> a == b
  {
    if Codes(a) == Codes(b) {
      forall i | 0 <= i < |a| ensures a[i] == b[i] {
        assert Codes(a)[i] == Codes(b)[i];
      }
    }
  }

  lemma CodesConcat(a: string, b: string)
    ensures Codes(a + b) == Codes(a) + Codes(b)
  {
  }

  lemma TextConnected(a: string, b: string)
    ensures a == b || TextLess(a, b) || TextLess(b, a)
  {
    LexConnected(Codes(a), Codes(b));
    CodesInjective(a, b);
  }

  /** Text order is a strict total order: what "sorted by id" may rely on. */
  lemma TextStrictTotal()
    ensures forall a: string :: !TextLess(a, a)
    ensures forall a: string, b: string :: a == b || TextLess(a, b) || TextLess(b, a)
    ensures forall a: string, b: string, c: string :: TextLess(a, b) && TextLess(b, c) ==> TextLess(a, c)
  {
    forall a: string ensures !TextLess(a, a) { LexIrreflexive(Codes(a)); }
    forall a: string, b: string ensures a == b || TextLess(a, b) || TextLess(b, a) { TextConnected(a, b); }
    forall a: string, b: string, c: string | TextLess(a, b) && TextLess(b, c) ensures TextLess(a, c) {
      LexTransitive(Codes(a), Codes(b), Codes(c));
    }
  }
}
