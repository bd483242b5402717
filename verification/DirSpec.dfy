/** What the operations mean for names: the directory is a finite map with link counts. */
module DirSpec {
  import opened Basics
  import opened Directories
  import opened FsSpec

  // ----- the directory as a finite map

  ghost function Bindings(es: seq<Dirent>): (b: map<Name, nat>)
    ensures forall n :: n in b <==> n != [] && FindFrom(es, n, 0) < |es|
    ensures forall n :: n in b ==> b[n] == es[FindFrom(es, n, 0)].ino
  {
    var names := set i | 0 <= i < |es| && es[i].name != [] :: es[i].name;
    map n | n in names :: es[FindFrom(es, n, 0)].ino
  }

  lemma LookupIsBinding(es: seq<Dirent>, n: Name)
    requires n != []
    ensures Lookup(es, n) == if n in Bindings(es) then Some(Bindings(es)[n]) else None
  {
    hide Bindings;
  }

  // A unique name leads to its own entry.
  lemma NameIsUnique(es: seq<Dirent>, m: nat, i: nat)
    requires Listed(es, m) && i < |es| && es[i].name != []
    ensures FindFrom(es, es[i].name, 0) == i
  {
    assert forall j :: 0 <= j < i ==> es[j].name != es[i].name;
  }

  lemma FindAppended(es: seq<Dirent>, e: Dirent, n: Name)
    ensures FindFrom(es + [e], n, 0) ==
            if FindFrom(es, n, 0) < |es| then FindFrom(es, n, 0)
            else if e.name == n then |es| else |es| + 1
  {
    var r, r', es' := FindFrom(es, n, 0), FindFrom(es + [e], n, 0), es + [e];
    assert r < |es| ==> es'[r].name == n;
    assert r' < |es| ==> es[r'].name == n;
    assert es'[|es|] == e;
  }

  lemma BindAppended(es: seq<Dirent>, e: Dirent)
    requires e.name != [] && Lookup(es, e.name).None?
    ensures Bindings(es + [e]) == Bindings(es)[e.name := e.ino]
  {
    hide Bindings;
    var b, b' := Bindings(es), Bindings(es + [e]);
    forall n ensures n in b' <==> n in b || n == e.name { FindAppended(es, e, n); }
    forall n | n in b' ensures b'[n] == b[e.name := e.ino][n] { FindAppended(es, e, n); }
  }

  lemma FindBlanked(es: seq<Dirent>, m: nat, i: nat, n: Name)
    requires Listed(es, m) && i < |es| && es[i].name != [] && n != []
    ensures FindFrom(es[i := BLANK], n, 0) == if n == es[i].name then |es| else FindFrom(es, n, 0)
  {
    var r, r', es' := FindFrom(es, n, 0), FindFrom(es[i := BLANK], n, 0), es[i := BLANK];
    NameIsUnique(es, m, i);
    if r' < |es| {
      assert es'[r'].name == n && r' != i;
      NameIsUnique(es, m, r');
    }
    if r < |es| && r != i { assert es'[r].name == n; }
  }

  lemma BindBlanked(es: seq<Dirent>, m: nat, i: nat)
    requires Listed(es, m) && i < |es| && es[i].name != []
    ensures Bindings(es[i := BLANK]) == Bindings(es) - {es[i].name}
  {
    hide Bindings;
    var b, b', name := Bindings(es), Bindings(es[i := BLANK]), es[i].name;
    forall n ensures n in b' <==> n in b && n != name {
      if n != [] { FindBlanked(es, m, i, n); }
    }
    forall n | n in b' ensures b'[n] == b[n] { FindBlanked(es, m, i, n); }
    assert b' == b - {name};
  }

  // ----- get_nlink

  // The names bound to inode k whose entry is among the first m.
  ghost function BoundBelow(es: seq<Dirent>, k: nat, m: nat): set<Name> {
    set n | n in Bindings(es) && Bindings(es)[n] == k && FindFrom(es, n, 0) < m
  }

  lemma BoundBelowNext(es: seq<Dirent>, n: nat, k: nat, m: nat)
    requires Listed(es, n) && k != 0 && m < |es|
    ensures |BoundBelow(es, k, m + 1)| ==
            |BoundBelow(es, k, m)| + if Lookup(es, es[m].name) == Some(k) then 1 else 0
  {
    hide Bindings, FindFrom;
    var s, s', name := BoundBelow(es, k, m), BoundBelow(es, k, m + 1), es[m].name;
    if name != [] { NameIsUnique(es, n, m); }
    forall x ensures x in s' <==> x in s || (x == name && Lookup(es, name) == Some(k)) {
      if x in s' && x !in s { assert FindFrom(es, x, 0) == m; }
    }
    if Lookup(es, name) == Some(k) {
      assert s' == s + {name};
    } else {
      assert s' == s;
    }
  }

  lemma {:induction false} LinksAreNames(es: seq<Dirent>, n: nat, k: nat, m: nat)
    requires Listed(es, n) && k != 0 && m <= |es|
    ensures Links(es, k, m) == |BoundBelow(es, k, m)|
  {
    hide Bindings, Lookup, FindFrom, Listed;
    if m == 0 {
      assert BoundBelow(es, k, 0) == {};
    } else {
      hide BoundBelow;
      LinksAreNames(es, n, k, m - 1);
      BoundBelowNext(es, n, k, m - 1);
    }
  }

  // The link count of an inode other than the root is the number of names bound to it.
  lemma NlinkCountsNames(es: seq<Dirent>, n: nat, k: nat)
    requires Listed(es, n) && k != 0
    ensures Nlink(es, k) == |set x | x in Bindings(es) && Bindings(es)[x] == k|
  {
    hide Bindings;
    LinksAreNames(es, n, k, |es|);
    assert (set x | x in Bindings(es) && Bindings(es)[x] == k) == BoundBelow(es, k, |es|);
  }

  // For the root the count is the number of blank entries.
  ghost function Blanks(es: seq<Dirent>, m: nat): nat
    requires m <= |es|
  {
    if m == 0 then 0 else Blanks(es, m - 1) + (if es[m - 1] == BLANK then 1 else 0)
  }

  lemma {:induction false} RootLinksAreBlanks(es: seq<Dirent>, n: nat, m: nat)
    requires Listed(es, n) && m <= |es|
    ensures Links(es, 0, m) == Blanks(es, m)
  {
    if m > 0 {
      RootLinksAreBlanks(es, n, m - 1);
      if es[m - 1].name != [] { NameIsUnique(es, n, m - 1); }
    }
  }

  // ----- what each operation does to the names

  lemma CreateMeaning(cs: Contents, name: Name)
    requires SpecInv(cs) && Callable(cs, Create(name))
    ensures var b, cs' := Bindings(Entries(cs[0])), Step(cs, Create(name));
            && (name in b ==> cs' == cs)
            && (name !in b ==>
                  && |cs'| == |cs| + 1 && cs'[|cs|] == []
                  && Bindings(Entries(cs'[0])) == b[name := |cs|]
                  && forall k :: 0 < k < |cs| ==> cs'[k] == cs[k])
  {
    hide EncodeDirent, Entries, DirOk, Bindings;
    LookupIsBinding(Entries(cs[0]), name);
    if Lookup(Entries(cs[0]), name).None? {
      ListedGrows(Entries(cs[0]), |cs|, |cs| + 1);
      AppendKeepsInv(cs + [[]], Dirent(name, |cs|));
      BindAppended(Entries(cs[0]), Dirent(name, |cs|));
    }
  }

  lemma LinkMeaning(cs: Contents, k: nat, name: Name)
    requires SpecInv(cs) && Callable(cs, Link(k, name))
    ensures var cs' := Step(cs, Link(k, name));
            && Bindings(Entries(cs'[0])) == Bindings(Entries(cs[0]))[name := k]
            && |cs'| == |cs| && forall j :: 0 < j < |cs| ==> cs'[j] == cs[j]
  {
    hide EncodeDirent, Entries, DirOk, Bindings;
    AppendKeepsInv(cs, Dirent(name, k));
    BindAppended(Entries(cs[0]), Dirent(name, k));
  }

  // name is the only name of inode k.
  ghost predicate LastName(b: map<Name, nat>, name: Name, k: nat) {
    name in b && b[name] == k && forall m :: m in b && b[m] == k ==> m == name
  }

  lemma LastNameIsOneLink(es: seq<Dirent>, n: nat, name: Name)
    requires Listed(es, n) && name in Bindings(es)
    ensures 0 < Bindings(es)[name] < n
    ensures Nlink(es, Bindings(es)[name]) == 1 <==> LastName(Bindings(es), name, Bindings(es)[name])
  {
    hide Bindings, Nlink;
    var b := Bindings(es);
    var k := b[name];
    assert es[FindFrom(es, name, 0)].name == name;
    NlinkCountsNames(es, n, k);
    var bound := set x | x in b && b[x] == k;
    assert name in bound;
    if |bound| == 1 {
      OnlyElement(bound, name);
      forall m | m in b && b[m] == k ensures m == name { assert m in bound; }
    }
    assert LastName(b, name, k) ==> bound == {name};
  }

  lemma OnlyElement(a: set<Name>, x: Name)
    requires |a| == 1 && x in a
    ensures a == {x}
  {
    var rest := a - {x};
    assert |rest| == 0;
  }

  // Unlinking a name removes that name only, and empties its file exactly when it was the last name.
  lemma UnlinkMeaning(cs: Contents, name: Name)
    requires SpecInv(cs) && name != []
    ensures var b, cs' := Bindings(Entries(cs[0])), Step(cs, Unlink(name));
            && Bindings(Entries(cs'[0])) == b - {name}
            && |cs'| == |cs|
            && forall k :: 0 < k < |cs| ==> cs'[k] == if LastName(b, name, k) then [] else cs[k]
  {
    hide Entries, DirOk, Bindings, Nlink, Blanked;
    var es := Entries(cs[0]);
    var b := Bindings(es);
    LookupIsBinding(es, name);
    UnlinkKeepsInv(cs, name);
    if name in b {
      LastNameIsOneLink(es, |cs|, name);
      BindBlanked(es, |cs|, FindFrom(es, name, 0));
    } else {
      assert b - {name} == b;
    }
  }

  // ----- the empty name finds a blank entry, and a blank entry leads to the root

  lemma FindEmptyName(es: seq<Dirent>, n: nat)
    requires Listed(es, n)
    ensures Lookup(es, []) == if Blanks(es, |es|) == 0 then None else Some(0)
    ensures FindFrom(es, [], 0) < |es| ==> es[FindFrom(es, [], 0)] == BLANK
  {
    var r := FindFrom(es, [], 0);
    if r < |es| {
      BlanksFound(es, r, |es|);
    } else {
      NoBlanks(es, |es|);
    }
  }

  lemma {:induction false} BlanksFound(es: seq<Dirent>, r: nat, m: nat)
    requires r < m <= |es| && es[r] == BLANK
    ensures Blanks(es, m) > 0
  {
    if r < m - 1 { BlanksFound(es, r, m - 1); }
  }

  lemma {:induction false} NoBlanks(es: seq<Dirent>, m: nat)
    requires m <= |es| && forall i :: 0 <= i < m ==> es[i].name != []
    ensures Blanks(es, m) == 0
  {
    if m > 0 { NoBlanks(es, m - 1); }
  }

  lemma ReleasedByEmptyName(cs: Contents)
    requires SpecInv(cs)
    ensures var es := Entries(cs[0]); Released(cs, 0, []) == if Blanks(es, |es|) == 1 then cs[0 := []] else cs
  {
    hide Entries, DirOk, Listed;
    var es := Entries(cs[0]);
    FindEmptyName(es, |cs|);
    RootLinksAreBlanks(es, |cs|, |es|);
  }

  lemma UnlinkOfEmptyName(cs: Contents)
    requires SpecInv(cs)
    ensures var es, cs' := Entries(cs[0]), Step(cs, Unlink([]));
            && Bindings(Entries(cs'[0])) == (if Blanks(es, |es|) == 1 then map[] else Bindings(es))
            && |cs'| == |cs| && forall k :: 0 < k < |cs| ==> cs'[k] == cs[k]
  {
    hide Entries, DirOk, Listed, Bindings, Blanked, Released, Lookup;
    var es := Entries(cs[0]);
    ReleasedByEmptyName(cs);
    FindEmptyName(es, |cs|);
    UnlinkKeepsInv(cs, []);
    if Blanks(es, |es|) == 1 {
      NoBindings();
    } else {
      var i := FindFrom(es, [], 0);
      if i < |es| { assert es[i := BLANK] == es; }
    }
  }

  lemma NoBindings()
    ensures Entries([]) == [] && Bindings([]) == map[]
  {
  }

  // unlink leaves every other name bound as before, except when it is given the empty name while
  // exactly one entry is blank: then the root's link count is one and the root itself is cleared.
  lemma UnlinkKeepsOtherNames(cs: Contents, name: Name)
    requires SpecInv(cs)
    ensures var es := Entries(cs[0]);
            var b := Bindings(es);
            Bindings(Entries(Step(cs, Unlink(name))[0])) == b - {name}
            <==> !(name == [] && Blanks(es, |es|) == 1 && b != map[])
  {
    hide Entries, DirOk, Bindings, Step;
    var b := Bindings(Entries(cs[0]));
    if name == [] {
      UnlinkOfEmptyName(cs);
      assert b - {[]} == b;
    } else {
      UnlinkMeaning(cs, name);
    }
  }

  // Two files are made and the first is unlinked.
  ghost function OneLeft(): Contents {
    FreshSpec();
    Step(Step(Step(FRESH, Create([97])), Create([98])), Unlink([97]))
  }

  lemma TwoMade()
    ensures SpecInv(FRESH) && |Step(FRESH, Create([97]))| == 2
    ensures var cs := Step(Step(FRESH, Create([97])), Create([98]));
            Entries(cs[0]) == [Dirent([97], 1), Dirent([98], 2)]
  {
    hide Entries, DirOk, EncodeDirent, Linked;
    FreshSpec();
    assert Entries(FRESH[0]) == [] by { NoBindings(); }
    CreateKeepsInv(FRESH, [97]);
    var cs1 := Step(FRESH, Create([97]));
    assert |cs1| == 2;
    CreateKeepsInv(cs1, [98]);
  }

  // Unlinking the empty name now loses the file that was never unlinked.
  lemma EmptyNameLosesAFile()
    ensures SpecInv(OneLeft())
    ensures Bindings(Entries(OneLeft()[0])) == map[[98] := 2]
    ensures Bindings(Entries(Step(OneLeft(), Unlink([]))[0])) == map[]
  {
    hide Entries, DirOk, Bindings, EncodeDirent, Blanked, Step, Linked;
    TwoMade();
    var cs := Step(Step(FRESH, Create([97])), Create([98]));
    var e1, e2 := Dirent([97], 1), Dirent([98], 2);
    assert Bindings([e1, e2]) == map[[97] := 1, [98] := 2] by {
      NoBindings();
      BindAppended([], e1);
      BindAppended([e1], e2);
      assert [] + [e1] == [e1] && [e1] + [e2] == [e1, e2];
    }
    UnlinkMeaning(cs, [97]);
    OneBlank(cs, e1, e2);
    UnlinkOfEmptyName(OneLeft());
  }

  lemma OneBlank(cs: Contents, e1: Dirent, e2: Dirent)
    requires SpecInv(cs) && Entries(cs[0]) == [e1, e2] && e1.name != [] && e2.name != [] && e1.ino != 0
    ensures Blanks(Entries(Step(cs, Unlink(e1.name))[0]), 2) == 1
    ensures |Entries(Step(cs, Unlink(e1.name))[0])| == 2
  {
    hide Entries, DirOk, Blanked, Nlink;
    UnlinkKeepsInv(cs, e1.name);
    var es := Entries(cs[0]);
    assert FindFrom(es, e1.name, 0) == 0;
    assert Released(cs, 0, e1.name)[0] == cs[0];
    assert es[0 := BLANK] == [BLANK, e2];
    assert Blanks([BLANK, e2], 1) == 1;
  }
}
