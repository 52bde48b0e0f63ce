/**
 * The bound-parameter map (QVariantMap: parameter key to bound value) and
 * insertParameter, which binds a value under a key not yet in the map:
 * ":name" when that is free, otherwise ":name0", ":name1", ... - the first
 * of these that is free.
 */
module BoundParameters {

  type Parameters<V> = map<string, V>

  /** The decimal digit d. */
  function Digit(d: nat): char
    requires d < 10
  {
    ('0' as int + d) as char
  }

  /** QString::number for a non-negative counter. */
  function DecimalString(n: nat): (s: string)
    ensures 1 <= |s|
    ensures |s| == 1 <==> n < 10
    decreases n
  {
    if n < 10 then [Digit(n)] else DecimalString(n / 10) + [Digit(n % 10)]
  }

  /** Distinct counters render as distinct strings. */
  lemma {:induction false} DecimalStringInjective(a: nat, b: nat)
    requires DecimalString(a) == DecimalString(b)
    ensures a == b
    decreases a
  {
    if 10 <= a && 10 <= b {
      var s := DecimalString(a);
      var sa, sb := DecimalString(a / 10), DecimalString(b / 10);
      assert s == sa + [Digit(a % 10)];
      assert s == sb + [Digit(b % 10)];
      assert sa == s[..|s| - 1] == sb;
      assert Digit(a % 10) == s[|s| - 1] == Digit(b % 10);
      DecimalStringInjective(a / 10, b / 10);
    }
  }

  /** The i-th key insertParameter tries for name: ":name" first, then
      ":name" followed by 0, 1, 2, ... */
  function Candidate(name: string, i: nat): string {
    if i == 0 then ":" + name else ":" + name + DecimalString(i - 1)
  }

  lemma CandidateInjective(name: string, i: nat, j: nat)
    requires Candidate(name, i) == Candidate(name, j)
    ensures i == j
  {
    var prefix := ":" + name;
    if 0 < i && 0 < j {
      assert DecimalString(i - 1) == Candidate(name, i)[|prefix|..];
      assert DecimalString(j - 1) == Candidate(name, j)[|prefix|..];
      DecimalStringInjective(i - 1, j - 1);
    }
  }

  /** The key the search loop builds in round i is candidate i + 1. */
  lemma NextCandidate(name: string, i: nat)
    ensures ":" + name + DecimalString(i) == Candidate(name, i + 1)
  {
  }

  /** The keys tried before the i-th one. */
  function Tried(name: string, i: nat): set<string> {
    set j | 0 <= j < i :: Candidate(name, j)
  }

  /** Trying one more key that is taken narrows the keys yet to be tried. */
  lemma TriedStep<V>(p: Parameters<V>, name: string, i: nat)
    requires Candidate(name, i) in p
    ensures |p.Keys - Tried(name, i + 1)| < |p.Keys - Tried(name, i)|
  {
    var c := Candidate(name, i);
    assert Tried(name, i + 1) == Tried(name, i) + {c};
    assert c !in Tried(name, i) by {
      if c in Tried(name, i) {
        var j :| 0 <= j < i && Candidate(name, j) == c;
        CandidateInjective(name, j, i);
      }
    }
    var rest := p.Keys - Tried(name, i);
    assert p.Keys - Tried(name, i + 1) == rest - {c};
    assert c in rest;
  }

  /** Index of the first free candidate key, searching from i on. */
  function FreeIndexFrom<V>(p: Parameters<V>, name: string, i: nat): (r: nat)
    requires forall j :: 0 <= j < i ==> Candidate(name, j) in p
    ensures i <= r && Candidate(name, r) !in p
    ensures forall j :: 0 <= j < r ==> Candidate(name, j) in p
    decreases |p.Keys - Tried(name, i)|
  {
    if Candidate(name, i) !in p then i
    else
      TriedStep(p, name, i);
      FreeIndexFrom(p, name, i + 1)
  }

  /** The key insertParameter picks for name in p. */
  function FreshKey<V>(p: Parameters<V>, name: string): (key: string)
    ensures key !in p
    ensures ":" + name !in p ==> key == ":" + name
  {
    Candidate(name, FreeIndexFrom(p, name, 0))
  }

  /** When ":name" is taken, the key is ":name" followed by the smallest
      counter k for which that key is free. */
  lemma FreshKeyTakesFirstFreeSuffix<V>(p: Parameters<V>, name: string)
    requires ":" + name in p
    ensures exists k: nat ::
              && FreshKey(p, name) == ":" + name + DecimalString(k)
              && forall j: nat :: j < k ==> ":" + name + DecimalString(j) in p
  {
    var r := FreeIndexFrom(p, name, 0);
    assert FreshKey(p, name) == Candidate(name, r);
    assert 0 < r;
    forall j: nat | j < r - 1
      ensures ":" + name + DecimalString(j) in p
    {
      assert Candidate(name, j + 1) in p;
    }
    assert FreshKey(p, name) == ":" + name + DecimalString(r - 1);
  }

  /** The first free candidate is the only candidate that is free while all
      candidates before it are taken. */
  lemma FirstFreeIsFreshKey<V>(p: Parameters<V>, name: string, i: nat)
    requires Candidate(name, i) !in p
    requires forall j :: 0 <= j < i ==> Candidate(name, j) in p
    ensures FreshKey(p, name) == Candidate(name, i)
  {
    var r := FreeIndexFrom(p, name, 0);
    assert Candidate(name, r) !in p;
  }

  /** p with value bound under the key insertParameter picks. */
  function Insert<V>(p: Parameters<V>, name: string, value: V): (q: Parameters<V>)
    ensures q.Keys == p.Keys + {FreshKey(p, name)} && |q| == |p| + 1
    ensures q[FreshKey(p, name)] == value
    ensures forall k :: k in p ==> q[k] == p[k]
  {
    p[FreshKey(p, name) := value]
  }

  /** insertParameter, with the source's search loop. The map the source
      updates through its reference argument is returned as p'. */
  method InsertParameter<V>(p: Parameters<V>, name: string, value: V) returns (key: string, p': Parameters<V>)
    ensures key == FreshKey(p, name) && p' == Insert(p, name, value)
  {
    ghost var free := FreeIndexFrom(p, name, 0);
    key := ":" + name;
    var i: nat := 0;
    while key in p
      invariant key == Candidate(name, i)
      invariant i <= free
      decreases free - i
    {
      assert i < free;
      NextCandidate(name, i);
      key := ":" + name + DecimalString(i);
      i := i + 1;
    }
    assert i == free;
    p' := p[key := value];
  }

  /** q keeps every entry of p unchanged. */
  ghost predicate Extends<V>(p: Parameters<V>, q: Parameters<V>) {
    forall k :: k in p ==> k in q && q[k] == p[k]
  }

  /** The keys ks are pairwise distinct, none was in p, and all are in q. */
  predicate FreshIn<V>(ks: seq<string>, p: Parameters<V>, q: Parameters<V>) {
    && (forall i :: 0 <= i < |ks| ==> ks[i] !in p && ks[i] in q)
    && (forall i, j :: 0 <= i < j < |ks| ==> ks[i] != ks[j])
  }

  /** Keys fresh in two successive extensions are fresh in the composition. */
  lemma FreshInAppend<V>(ks1: seq<string>, ks2: seq<string>, p: Parameters<V>, q: Parameters<V>, r: Parameters<V>)
    requires FreshIn(ks1, p, q) && FreshIn(ks2, q, r) && Extends(p, q) && Extends(q, r)
    ensures FreshIn(ks1 + ks2, p, r)
  {
    var ks := ks1 + ks2;
    forall i | 0 <= i < |ks|
      ensures ks[i] !in p && ks[i] in r
    {
      if i < |ks1| { assert ks[i] == ks1[i]; } else { assert ks[i] == ks2[i - |ks1|]; }
    }
    forall i, j | 0 <= i < j < |ks|
      ensures ks[i] != ks[j]
    {
      if j < |ks1| {
        assert ks[i] == ks1[i] && ks[j] == ks1[j];
      } else if i < |ks1| {
        assert ks[i] == ks1[i] && ks[i] in q && ks[j] == ks2[j - |ks1|];
      } else {
        assert ks[i] == ks2[i - |ks1|] && ks[j] == ks2[j - |ks1|];
      }
    }
  }

  /** p with vs[i] bound under ks[i], left to right. */
  function BindAll<V>(p: Parameters<V>, ks: seq<string>, vs: seq<V>): Parameters<V>
    requires |ks| == |vs|
    decreases |ks|
  {
    if ks == [] then p else BindAll(p[ks[0] := vs[0]], ks[1..], vs[1..])
  }

  lemma {:induction false} BindAllAppend<V>(p: Parameters<V>, ks1: seq<string>, vs1: seq<V>, ks2: seq<string>, vs2: seq<V>)
    requires |ks1| == |vs1| && |ks2| == |vs2|
    ensures BindAll(p, ks1 + ks2, vs1 + vs2) == BindAll(BindAll(p, ks1, vs1), ks2, vs2)
    decreases |ks1|
  {
    if ks1 == [] {
      assert ks1 + ks2 == ks2 && vs1 + vs2 == vs2;
    } else {
      assert (ks1 + ks2)[1..] == ks1[1..] + ks2;
      assert (vs1 + vs2)[1..] == vs1[1..] + vs2;
      BindAllAppend(p[ks1[0] := vs1[0]], ks1[1..], vs1[1..], ks2, vs2);
    }
  }

  /** Binding distinct keys leaves each key bound to its own value. */
  lemma {:induction false} BindAllLookup<V>(p: Parameters<V>, ks: seq<string>, vs: seq<V>, i: nat)
    requires |ks| == |vs| && i < |ks|
    requires forall a, b :: 0 <= a < b < |ks| ==> ks[a] != ks[b]
    ensures ks[i] in BindAll(p, ks, vs) && BindAll(p, ks, vs)[ks[i]] == vs[i]
    decreases |ks|
  {
    if i == 0 {
      BindAllKeepsOthers(p[ks[0] := vs[0]], ks[1..], vs[1..], ks[0]);
    } else {
      BindAllLookup(p[ks[0] := vs[0]], ks[1..], vs[1..], i - 1);
    }
  }

  lemma {:induction false} BindAllKeepsOthers<V>(p: Parameters<V>, ks: seq<string>, vs: seq<V>, k: string)
    requires |ks| == |vs| && k !in ks && k in p
    ensures k in BindAll(p, ks, vs) && BindAll(p, ks, vs)[k] == p[k]
    decreases |ks|
  {
    if ks != [] {
      BindAllKeepsOthers(p[ks[0] := vs[0]], ks[1..], vs[1..], k);
    }
  }
}
