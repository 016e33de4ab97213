/** Lists of actors as a host names them: the same one twice, or nobody at all, is no trouble. */
module Names {
  import opened Listings

  ghost predicate NoneTwice(s: seq<string>)
  {
    forall i, j :: 0 <= i < j < |s| ==> s[i] != s[j]
  }

  /** The names outside `skip`, each once, in the order they were first seen. */
  function FirstSeen(named: seq<string>, skip: set<string>): seq<string>
  {
    if named == [] then []
    else
      var before, last := FirstSeen(named[..|named| - 1], skip), named[|named| - 1];
      if last in skip || last in before then before else before + [last]
  }

  lemma FirstSeenAppend(named: seq<string>, skip: set<string>, k: nat)
    requires k < |named|
    ensures var before := FirstSeen(named[..k], skip);
            FirstSeen(named[..k + 1], skip) == if named[k] in skip || named[k] in before then before
              else before + [named[k]]
  {
    assert named[..k + 1][..k] == named[..k];
  }

  /** Where a name is first seen. */
  ghost function FirstAt(named: seq<string>, a: string): (k: nat)
    requires a in named
    ensures k < |named| && named[k] == a && a !in named[..k]
  {
    var rest := named[..|named| - 1];
    if a in rest then
      var k := FirstAt(rest, a);
      assert named[..k] == rest[..k];
      k
    else |named| - 1
  }

  /** Exactly the names outside `skip`, none twice, in the order they were first seen. */
  ghost predicate InFirstSeenOrder(named: seq<string>, skip: set<string>, out: seq<string>)
  {
    && (forall a :: a in out <==> a in named && a !in skip)
    && (forall i, j :: 0 <= i < j < |out| ==>
          out[i] in named && out[j] in named && FirstAt(named, out[i]) < FirstAt(named, out[j]))
  }

  ghost function Places(named: seq<string>, out: seq<string>): seq<int>
    requires forall a :: a in out ==> a in named
  {
    seq(|out|, i requires 0 <= i < |out| => assert out[i] in out; FirstAt(named, out[i]))
  }

  lemma PlacesWithin(named: seq<string>, a: seq<string>, b: seq<string>)
    requires forall x :: x in b ==> x in named
    requires forall x :: x in a ==> x in b
    ensures forall t :: t in Places(named, a) ==> t in Places(named, b)
  {
    forall t | t in Places(named, a) ensures t in Places(named, b) {
      var i :| 0 <= i < |a| && Places(named, a)[i] == t;
      assert a[i] in b;
      var j :| 0 <= j < |b| && b[j] == a[i];
      assert Places(named, b)[j] == t;
    }
  }

  lemma SamePlacesSameNames(named: seq<string>, skip: set<string>, a: seq<string>, b: seq<string>)
    requires InFirstSeenOrder(named, skip, a) && InFirstSeenOrder(named, skip, b)
    ensures a == b
  {
    var p, q := Places(named, a), Places(named, b);
    PlacesWithin(named, a, b);
    PlacesWithin(named, b, a);
    OneIncreasingListing(p, q);
    assert |a| == |p| == |q| == |b|;
    forall i | 0 <= i < |a| ensures a[i] == b[i] {
      assert FirstAt(named, a[i]) == p[i] == q[i] == FirstAt(named, b[i]);
    }
  }

  lemma {:induction false} FirstSeenIsInOrder(named: seq<string>, skip: set<string>)
    ensures InFirstSeenOrder(named, skip, FirstSeen(named, skip))
    decreases |named|
  {
    if named != [] {
      var rest, last := named[..|named| - 1], named[|named| - 1];
      var before, out := FirstSeen(rest, skip), FirstSeen(named, skip);
      FirstSeenIsInOrder(rest, skip);
      assert named == rest + [last];
      forall i, j | 0 <= i < j < |out|
        ensures out[i] in named && out[j] in named && FirstAt(named, out[i]) < FirstAt(named, out[j])
      {
        assert out[i] in before;
        assert FirstAt(named, out[i]) == FirstAt(rest, out[i]);
        if j < |before| { assert out[j] in before; }
      }
    }
  }

  /** One list, and no other, is in first-seen order. */
  lemma FirstSeenIsTheOnlyOne(named: seq<string>, skip: set<string>, out: seq<string>)
    ensures out == FirstSeen(named, skip) <==> InFirstSeenOrder(named, skip, out)
  {
    FirstSeenIsInOrder(named, skip);
    if InFirstSeenOrder(named, skip, out) { SamePlacesSameNames(named, skip, out, FirstSeen(named, skip)); }
  }

  /** The loop over a `seen` map that both audiences and recipients are read through. */
  method Distinct(named: seq<string>) returns (out: seq<string>)
    ensures out == FirstSeen(named, {""}) && InFirstSeenOrder(named, {""}, out)
  {
    FirstSeenIsTheOnlyOne(named, {""}, FirstSeen(named, {""}));
    var seen: map<string, bool> := map["" := true];
    out := [];
    for k := 0 to |named|
      invariant out == FirstSeen(named[..k], {""})
      invariant forall a :: a in seen <==> a == "" || a in out
    {
      FirstSeenAppend(named, {""}, k);
      if named[k] in seen { continue; }
      seen := seen[named[k] := true];
      out := out + [named[k]];
    }
    assert named[..|named|] == named;
  }

  /** The names that satisfy `p`, in order. */
  function Keep(names: seq<string>, p: string -> bool): seq<string>
  {
    if names == [] then []
    else Keep(names[..|names| - 1], p) + if p(names[|names| - 1]) then [names[|names| - 1]] else []
  }

  lemma KeepAppend(names: seq<string>, k: nat, p: string -> bool)
    requires k < |names|
    ensures Keep(names[..k + 1], p) == Keep(names[..k], p) + if p(names[k]) then [names[k]] else []
  {
    assert names[..k + 1][..k] == names[..k];
  }

  lemma {:induction false} KeptAre(names: seq<string>, p: string -> bool)
    ensures forall a :: a in Keep(names, p) <==> a in names && p(a)
    decreases |names|
  {
    if names != [] {
      KeptAre(names[..|names| - 1], p);
      assert names == names[..|names| - 1] + [names[|names| - 1]];
    }
  }

  lemma {:induction false} KeepAgrees(names: seq<string>, p: string -> bool, q: string -> bool)
    requires forall a :: a in names ==> p(a) == q(a)
    ensures Keep(names, p) == Keep(names, q)
    decreases |names|
  {
    if names != [] { KeepAgrees(names[..|names| - 1], p, q); }
  }
}
