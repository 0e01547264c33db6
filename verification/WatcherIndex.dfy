/** The reverse index from D-Bus (object, interface, property) triples to GraphQL fields. */
module WatcherIndex {

  type Name = string

  datatype Watcher = Watcher(object_: Name, iface: Name, property: Name, fields: seq<Name>)

  const NUL: char := '\0'

  type Index = map<string, seq<Name>>

  function Key(o: Name, i: Name, p: Name): string
  {
    o + [NUL] + i + [NUL] + p
  }

  function KeyOf(w: Watcher): string
  {
    Key(w.object_, w.iface, w.property)
  }

  function At(index: Index, key: string): seq<Name>
  {
    if key in index then index[key] else []
  }

  /** Four lookups, from the most to the least specific. */
  function Resolve(index: Index, o: Name, i: Name, p: Name): seq<Name>
  {
    At(index, Key(o, i, p)) + At(index, Key(o, i, "")) + At(index, Key("", i, p)) + At(index, Key("", i, ""))
  }

  // ---- The scan it stands for ----

  /** The fields of all watchers registered for exactly this triple, in table order. */
  function Scan(ws: seq<Watcher>, o: Name, i: Name, p: Name): seq<Name>
  {
    if ws == [] then []
    else
      var w := ws[|ws| - 1];
      Scan(ws[..|ws| - 1], o, i, p) + if w.object_ == o && w.iface == i && w.property == p then w.fields else []
  }

  /** Does the watcher care about this triple? An empty object or property is a wildcard. */
  predicate Matches(w: Watcher, o: Name, i: Name, p: Name)
  {
    w.iface == i && (w.object_ == o || w.object_ == "") && (w.property == p || w.property == "")
  }

  function Interested(ws: seq<Watcher>, o: Name, i: Name, p: Name): multiset<Name>
  {
    if ws == [] then multiset{}
    else
      var w := ws[|ws| - 1];
      Interested(ws[..|ws| - 1], o, i, p) + if Matches(w, o, i, p) then multiset(w.fields) else multiset{}
  }

  predicate NulFree(s: string)
  {
    NUL !in s
  }

  ghost predicate AllNulFree(ws: seq<Watcher>)
  {
    forall k :: 0 <= k < |ws| ==> NulFree(ws[k].object_) && NulFree(ws[k].iface) && NulFree(ws[k].property)
  }

  // ---- The joined key is injective on names without NUL ----

  lemma {:induction false} SameHead(a: string, b: string, x: string, y: string)
    requires NulFree(a) && NulFree(b) && a + [NUL] + x == b + [NUL] + y
    ensures a == b && x == y
    decreases |a|
  {
    var s := a + [NUL] + x;
    assert s == b + [NUL] + y;
    assert a != [] ==> a[0] in a;
    assert b != [] ==> b[0] in b;
    assert s[0] == (if a == [] then NUL else a[0]) && s[0] == (if b == [] then NUL else b[0]);
    if a == [] {
      assert s[1..] == x && s[1..] == y;
    } else {
      assert s[1..] == a[1..] + [NUL] + x && s[1..] == b[1..] + [NUL] + y;
      SameHead(a[1..], b[1..], x, y);
      assert a == [a[0]] + a[1..] && b == [b[0]] + b[1..];
    }
  }

  lemma KeyInjective(o: Name, i: Name, p: Name, o': Name, i': Name, p': Name)
    requires NulFree(o) && NulFree(i) && NulFree(o') && NulFree(i')
    ensures Key(o, i, p) == Key(o', i', p') <==> o == o' && i == i' && p == p'
  {
    if Key(o, i, p) == Key(o', i', p') {
      assert Key(o, i, p) == o + [NUL] + (i + [NUL] + p) && Key(o', i', p') == o' + [NUL] + (i' + [NUL] + p');
      SameHead(o, o', i + [NUL] + p, i' + [NUL] + p');
      SameHead(i, i', p, p');
    }
  }

  /** The index built from the table. */
  function Built(ws: seq<Watcher>): Index
  {
    if ws == [] then map[]
    else
      var w := ws[|ws| - 1];
      var index := Built(ws[..|ws| - 1]);
      if w.fields == [] then index else index[KeyOf(w) := At(index, KeyOf(w)) + w.fields]
  }

  /** Looking up a key in the index is scanning the table for the triple. */
  lemma {:induction false} IndexIsScan(ws: seq<Watcher>, o: Name, i: Name, p: Name)
    requires AllNulFree(ws) && NulFree(o) && NulFree(i)
    ensures At(Built(ws), Key(o, i, p)) == Scan(ws, o, i, p)
    decreases |ws|
  {
    if ws != [] {
      var init, w := ws[..|ws| - 1], ws[|ws| - 1];
      assert NulFree(w.object_) && NulFree(w.iface);
      IndexIsScan(init, o, i, p);
      KeyInjective(o, i, p, w.object_, w.iface, w.property);
    }
  }

  /** The resolved fields, in order: the exact watchers, then those for any property of the
      object, then those for the property on any object, then those for the interface. */
  lemma ResolveOrder(ws: seq<Watcher>, o: Name, i: Name, p: Name)
    requires AllNulFree(ws) && NulFree(o) && NulFree(i)
    ensures Resolve(Built(ws), o, i, p) ==
      Scan(ws, o, i, p) + Scan(ws, o, i, "") + Scan(ws, "", i, p) + Scan(ws, "", i, "")
  {
    IndexIsScan(ws, o, i, p);
    IndexIsScan(ws, o, i, "");
    IndexIsScan(ws, "", i, p);
    IndexIsScan(ws, "", i, "");
  }

  /** The four lookups come upon the same watcher twice for each of object and property that
      is empty. */
  function Repeated(o: Name, p: Name, count: nat): nat
  {
    if o == "" && p == "" then 4 * count else if o == "" || p == "" then 2 * count else count
  }

  /** What watcher `w` adds to the scan for a triple, counting one of its fields `x` times. */
  function Share(w: Watcher, o: Name, i: Name, p: Name, x: nat): nat
  {
    if w.object_ == o && w.iface == i && w.property == p then x else 0
  }

  lemma FourShares(w: Watcher, o: Name, i: Name, p: Name, x: nat)
    ensures Share(w, o, i, p, x) + Share(w, o, i, "", x) + Share(w, "", i, p, x) + Share(w, "", i, "", x)
      == Repeated(o, p, if Matches(w, o, i, p) then x else 0)
  {
  }

  ghost function Count(s: seq<Name>, f: Name): nat
  {
    multiset(s)[f]
  }

  lemma ScanCount(ws: seq<Watcher>, w: Watcher, o: Name, i: Name, p: Name, f: Name)
    ensures Count(Scan(ws + [w], o, i, p), f) == Count(Scan(ws, o, i, p), f) + Share(w, o, i, p, Count(w.fields, f))
  {
    assert (ws + [w])[..|ws|] == ws;
  }

  lemma InterestedCount(ws: seq<Watcher>, w: Watcher, o: Name, i: Name, p: Name, f: Name)
    ensures Interested(ws + [w], o, i, p)[f] == Interested(ws, o, i, p)[f]
      + if Matches(w, o, i, p) then Count(w.fields, f) else 0
  {
    assert (ws + [w])[..|ws|] == ws;
  }

  lemma RepeatedAdds(o: Name, p: Name, x: nat, y: nat)
    ensures Repeated(o, p, x) + Repeated(o, p, y) == Repeated(o, p, x + y)
  {
  }

  /** How often the four levels together list `f`. */
  ghost function Levels(ws: seq<Watcher>, o: Name, i: Name, p: Name, f: Name): nat
  {
    Count(Scan(ws, o, i, p), f) + Count(Scan(ws, o, i, ""), f) +
    Count(Scan(ws, "", i, p), f) + Count(Scan(ws, "", i, ""), f)
  }

  lemma LevelsAdd(ws: seq<Watcher>, w: Watcher, o: Name, i: Name, p: Name, f: Name)
    ensures Levels(ws + [w], o, i, p, f) ==
      Levels(ws, o, i, p, f) + Repeated(o, p, if Matches(w, o, i, p) then Count(w.fields, f) else 0)
  {
    ScanCount(ws, w, o, i, p, f);
    ScanCount(ws, w, o, i, "", f);
    ScanCount(ws, w, "", i, p, f);
    ScanCount(ws, w, "", i, "", f);
    FourShares(w, o, i, p, Count(w.fields, f));
  }

  lemma {:induction false} LevelsCount(ws: seq<Watcher>, o: Name, i: Name, p: Name, f: Name)
    ensures Levels(ws, o, i, p, f) == Repeated(o, p, Interested(ws, o, i, p)[f])
    decreases |ws|
  {
    if ws != [] {
      var init, w := ws[..|ws| - 1], ws[|ws| - 1];
      assert init + [w] == ws;
      LevelsCount(init, o, i, p, f);
      LevelsAdd(init, w, o, i, p, f);
      InterestedCount(init, w, o, i, p, f);
      RepeatedAdds(o, p, Interested(init, o, i, p)[f], if Matches(w, o, i, p) then Count(w.fields, f) else 0);
    }
  }

  /** For every signal the index yields the fields of all interested watchers, each as often as
      the table lists it, times the repetition for an empty object or property. */
  lemma IndexAgreesWithScan(ws: seq<Watcher>, o: Name, i: Name, p: Name, f: Name)
    requires AllNulFree(ws) && NulFree(o) && NulFree(i)
    ensures multiset(Resolve(Built(ws), o, i, p))[f] == Repeated(o, p, Interested(ws, o, i, p)[f])
  {
    ResolveOrder(ws, o, i, p);
    LevelsCount(ws, o, i, p, f);
  }

  /** So index and scan agree exactly if object and property are given or nobody is interested. */
  lemma IndexAgreesIff(ws: seq<Watcher>, o: Name, i: Name, p: Name)
    requires AllNulFree(ws) && NulFree(o) && NulFree(i)
    ensures multiset(Resolve(Built(ws), o, i, p)) == Interested(ws, o, i, p) <==>
      (o != "" && p != "") || Interested(ws, o, i, p) == multiset{}
  {
    var m := Interested(ws, o, i, p);
    var r := multiset(Resolve(Built(ws), o, i, p));
    forall f
      ensures r[f] == Repeated(o, p, m[f])
    {
      IndexAgreesWithScan(ws, o, i, p, f);
    }
    RepeatedIff(o, p, m, r);
  }

  /** A watcher for a whole interface, asked for with neither object nor property, is found at
      all four levels. */
  lemma FoundFourTimes(i: Name, f: Name)
    requires NulFree(i)
    ensures multiset(Resolve(Built([Watcher("", i, "", [f])]), "", i, ""))[f] == 4
  {
    var w := Watcher("", i, "", [f]);
    InterestedCount([], w, "", i, "", f);
    assert [] + [w] == [w];
    IndexAgreesWithScan([w], "", i, "", f);
  }

  lemma RepeatedIff(o: Name, p: Name, m: multiset<Name>, r: multiset<Name>)
    requires forall f :: r[f] == Repeated(o, p, m[f])
    ensures r == m <==> (o != "" && p != "") || m == multiset{}
  {
    if m != multiset{} {
      var f :| f in m;
      assert r[f] == Repeated(o, p, m[f]);
    } else {
      assert forall f :: r[f] == 0;
    }
  }

  // ---- The code ----

  lemma BuiltSnoc(ws: seq<Watcher>, w: Watcher)
    ensures Built(ws + [w]) ==
      if w.fields == [] then Built(ws) else Built(ws)[KeyOf(w) := At(Built(ws), KeyOf(w)) + w.fields]
  {
    assert (ws + [w])[..|ws|] == ws;
  }

  method BuildIndex(ws: seq<Watcher>) returns (index: Index)
    ensures index == Built(ws)
  {
    index := map[];
    for k := 0 to |ws|
      invariant index == Built(ws[..k])
    {
      var w := ws[k];
      assert ws[..k + 1] == ws[..k] + [w];
      BuiltSnoc(ws[..k], w);
      var key := w.object_ + [NUL] + w.iface + [NUL] + w.property;
      ghost var before := index;
      for j := 0 to |w.fields|
        invariant index == if j == 0 then before else before[key := At(before, key) + w.fields[..j]]
      {
        assert w.fields[..j + 1] == w.fields[..j] + [w.fields[j]];
        assert At(before, key) + w.fields[..j] + [w.fields[j]] == At(before, key) + w.fields[..j + 1];
        assert j == 0 ==> w.fields[..j] == [] && At(before, key) + [] == At(before, key);
        index := index[key := At(index, key) + [w.fields[j]]];
      }
      assert w.fields[..|w.fields|] == w.fields;
    }
    assert ws[..|ws|] == ws;
  }

  method Collect(index: Index, key: string, fields0: seq<Name>) returns (fields: seq<Name>)
    ensures fields == fields0 + At(index, key)
  {
    fields := fields0;
    if key in index {
      var found := index[key];
      for j := 0 to |found|
        invariant fields == fields0 + found[..j]
      {
        assert found[..j + 1] == found[..j] + [found[j]];
        fields := fields + [found[j]];
      }
      assert found[..|found|] == found;
    }
  }

  method ResolveFields(index: Index, o: Name, i: Name, p: Name) returns (fields: seq<Name>)
    ensures fields == Resolve(index, o, i, p)
  {
    fields := Collect(index, o + [NUL] + i + [NUL] + p, []);
    assert o + [NUL] + i + [NUL] == Key(o, i, "") && [NUL] + i + [NUL] + p == Key("", i, p) &&
      [NUL] + i + [NUL] == Key("", i, "");
    fields := Collect(index, o + [NUL] + i + [NUL], fields);
    fields := Collect(index, [NUL] + i + [NUL] + p, fields);
    fields := Collect(index, [NUL] + i + [NUL], fields);
  }
}
