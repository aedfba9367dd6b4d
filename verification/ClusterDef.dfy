/** Byte-wise ordering of strings, and the sort that the definitions compare service lists with. */
module StringOrder {

  predicate Leq(a: string, b: string) {
    a == [] || (b != [] && (a[0] < b[0] || (a[0] == b[0] && Leq(a[1..], b[1..]))))
  }

  lemma {:induction false} LeqTotal(a: string, b: string)
    ensures Leq(a, b) || Leq(b, a)
  {
    if a != [] && b != [] { LeqTotal(a[1..], b[1..]); }
  }

  lemma {:induction false} LeqAntisymmetric(a: string, b: string)
    requires Leq(a, b) && Leq(b, a)
    ensures a == b
  {
    if a != [] {
      LeqAntisymmetric(a[1..], b[1..]);
      assert a == [a[0]] + a[1..] && b == [b[0]] + b[1..];
    }
  }

  lemma {:induction false} LeqTransitive(a: string, b: string, c: string)
    requires Leq(a, b) && Leq(b, c)
    ensures Leq(a, c)
  {
    if a != [] && a[0] == b[0] == c[0] { LeqTransitive(a[1..], b[1..], c[1..]); }
  }

  ghost predicate Sorted(s: seq<string>) {
    forall i, j | 0 <= i < j < |s| :: Leq(s[i], s[j])
  }

  lemma PrependSorted(x: string, s: seq<string>)
    requires Sorted(s) && forall y | y in multiset(s) :: Leq(x, y)
    ensures Sorted([x] + s)
  {
  }

  lemma HeadIsLeast(x: string, s: seq<string>)
    requires Sorted(s) && s != [] && Leq(x, s[0])
    ensures forall y | y in multiset(s) :: Leq(x, y)
  {
    forall y | y in multiset(s) ensures Leq(x, y) {
      FirstIsLeast(s, y);
      LeqTransitive(x, s[0], y);
    }
  }

  function Insert(x: string, s: seq<string>): (r: seq<string>)
    requires Sorted(s)
    ensures Sorted(r) && multiset(r) == multiset(s) + multiset{x}
  {
    if s == [] then [x]
    else if Leq(x, s[0]) then
      HeadIsLeast(x, s);
      PrependSorted(x, s);
      [x] + s
    else
      var rest := Insert(x, s[1..]);
      assert s == [s[0]] + s[1..];
      assert forall y | y in multiset(rest) :: Leq(s[0], y) by {
        LeqTotal(x, s[0]);
        LeqReflexive(s[0]);
        HeadIsLeast(s[0], s);
      }
      PrependSorted(s[0], rest);
      [s[0]] + rest
  }

  function Sort(s: seq<string>): (r: seq<string>)
    ensures Sorted(r) && multiset(r) == multiset(s)
  {
    if s == [] then []
    else
      assert s == [s[0]] + s[1..];
      Insert(s[0], Sort(s[1..]))
  }

  lemma FirstIsLeast(s: seq<string>, x: string)
    requires Sorted(s) && x in multiset(s)
    ensures s != [] && Leq(s[0], x)
  {
    assert x in s;
    var k :| 0 <= k < |s| && s[k] == x;
    LeqReflexive(x);
    if 0 < k { assert Leq(s[0], s[k]); }
  }

  lemma FirstsAgree(s: seq<string>, t: seq<string>)
    requires Sorted(s) && Sorted(t) && multiset(s) == multiset(t) && s != [] && t != []
    ensures s[0] == t[0]
  {
    assert s[0] in multiset(s) && t[0] in multiset(t);
    FirstIsLeast(s, t[0]);
    FirstIsLeast(t, s[0]);
    LeqAntisymmetric(s[0], t[0]);
  }

  lemma RestsAgree(s: seq<string>, t: seq<string>)
    requires multiset(s) == multiset(t) && s != [] && t != [] && s[0] == t[0]
    ensures multiset(s[1..]) == multiset(t[1..])
  {
    assert s == [s[0]] + s[1..] && t == [t[0]] + t[1..];
    assert multiset(s[1..]) == multiset(s) - multiset{s[0]} == multiset(t[1..]);
  }

  lemma {:induction false} SortedIsUnique(s: seq<string>, t: seq<string>)
    requires Sorted(s) && Sorted(t) && multiset(s) == multiset(t)
    ensures s == t
  {
    assert |s| == |multiset(s)| == |multiset(t)| == |t|;
    if s != [] {
      FirstsAgree(s, t);
      RestsAgree(s, t);
      assert s == [s[0]] + s[1..] && t == [t[0]] + t[1..];
      SortedIsUnique(s[1..], t[1..]);
    }
  }

  lemma {:induction false} LeqReflexive(a: string)
    ensures Leq(a, a)
  {
    if a != [] { LeqReflexive(a[1..]); }
  }

  /** Sorting is a canonical form: it identifies exactly the lists that are permutations of each other. */
  lemma SortIsCanonical(a: seq<string>, b: seq<string>)
    ensures Sort(a) == Sort(b) <==> multiset(a) == multiset(b)
  {
    if multiset(a) == multiset(b) { SortedIsUnique(Sort(a), Sort(b)); }
  }
}

/** Cluster definitions: node groups and their service lists. */
module ClusterDef {
  import opened StringOrder

  type Service = string

  const KV_SERVICE: Service := "kv"
  const QUERY_SERVICE: Service := "n1ql"
  const INDEX_SERVICE: Service := "index"
  const SEARCH_SERVICE: Service := "fts"
  const ANALYTICS_SERVICE: Service := "cbas"
  const EVENTING_SERVICE: Service := "eventing"

  const DEFAULT_SERVICES: seq<Service> := [KV_SERVICE, INDEX_SERVICE, QUERY_SERVICE, SEARCH_SERVICE]

  datatype NodeGroup = NodeGroup(
    count: int,
    serverGroup: string,
    forceNew: bool,
    version: string,
    services: seq<Service>)

  function CompareStrings(a: string, b: string): int {
    if a == b then 0 else if Leq(a, b) then -1 else 1
  }

  /** The library's element-wise comparison of two slices. */
  function CompareSlices(a: seq<string>, b: seq<string>): int {
    if a == [] then (if b == [] then 0 else -1)
    else if b == [] then 1
    else
      var c := CompareStrings(a[0], b[0]);
      if c != 0 then c else CompareSlices(a[1..], b[1..])
  }

  function CompareServices(a: seq<Service>, b: seq<Service>): int {
    if |a| < |b| then -1
    else if |a| > |b| then 1
    else CompareSlices(Sort(a), Sort(b))
  }

  lemma {:induction false} CompareSlicesZero(a: seq<string>, b: seq<string>)
    ensures CompareSlices(a, b) == 0 <==> a == b
  {
    if a != [] && b != [] {
      CompareSlicesZero(a[1..], b[1..]);
      assert a == [a[0]] + a[1..] && b == [b[0]] + b[1..];
    }
  }

  /** The comparison is zero exactly on permutations, repeated services included. */
  lemma CompareServicesZero(a: seq<Service>, b: seq<Service>)
    ensures CompareServices(a, b) == 0 <==> multiset(a) == multiset(b)
  {
    SortIsCanonical(a, b);
    CompareSlicesZero(Sort(a), Sort(b));
    assert |multiset(a)| == |a| && |multiset(b)| == |b|;
  }

  lemma {:induction false} CompareSlicesAntisymmetric(a: seq<string>, b: seq<string>)
    ensures CompareSlices(a, b) == -CompareSlices(b, a)
  {
    if a != [] && b != [] {
      LeqTotal(a[0], b[0]);
      if Leq(a[0], b[0]) && Leq(b[0], a[0]) { LeqAntisymmetric(a[0], b[0]); }
      CompareSlicesAntisymmetric(a[1..], b[1..]);
    }
  }

  lemma CompareServicesAntisymmetric(a: seq<Service>, b: seq<Service>)
    ensures CompareServices(a, b) == -CompareServices(b, a)
  {
    CompareSlicesAntisymmetric(Sort(a), Sort(b));
  }
}
