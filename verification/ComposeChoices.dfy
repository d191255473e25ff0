/** Which module a root gets, and which roots are found (internal/aphelion/mapping/compose.go:273-352). */
module ComposeChoices {
  import opened Basics
  import opened Runs
  import opened Composition
  import opened ComposeBoard
  import opened Compose
  import opened ComposeMeaning

  /** The root may load a module: its cell is free, it is not excluded, it is not too deep and not
      inside itself. */
  ghost predicate Eligible(e: Expansion, item: Pending) {
    && Holder(e.reserved, item.root.destination) == "" && item.root.id !in e.req.excluded
    && item.depth < 32 && forall k :: 0 <= k < |item.ancestry| ==> item.ancestry[k] != Binding(item.root)
  }

  /** Candidate n of the root can be loaded from the catalogue and anchored on the root's cell. */
  ghost predicate Offers(e: Expansion, root: Root, n: int, source: Source, offset: Point) {
    && 0 <= n < |root.candidates| && root.candidates[n].error == ""
    && e.req.cat.load(root.candidates[n].path) == Some(source)
    && e.req.cat.anchor(source, root.destination) == Some(offset)
  }

  /** A root without a pin gets its first candidate. */
  lemma UnpinnedRoot(e: Expansion, choices: map<string, Choice>, item: Pending, x: Placed)
    requires item.root.id !in choices
    ensures Resolve(e, choices, item) == Some(x) <==>
      && Eligible(e, item) && Offers(e, item.root, 0, x.source, x.offset)
      && x.id == item.root.id && x.binding == Binding(item.root)
  {
  }

  /** A pin is stale when the root was configured anew, or when the pinned content changed and is not
      a later revision of the same document. */
  predicate Stale(pin: Choice, root: Root, source: Source) {
    || (pin.bindingHash != "" && pin.bindingHash != root.bindingHash)
    || (pin.candidateHash != "" && pin.candidateHash != source.structuralHash &&
        (pin.documentID == "" || pin.documentID != source.documentID || pin.generation != source.generation
         || pin.revision > source.revision))
  }

  /** A pinned root gets the pinned candidate, unless the pin is stale. */
  lemma PinnedRoot(e: Expansion, choices: map<string, Choice>, item: Pending, x: Placed)
    requires item.root.id in choices
    ensures Resolve(e, choices, item) == Some(x) <==>
      var pin := choices[item.root.id];
      && Eligible(e, item) && Offers(e, item.root, pin.slot, x.source, x.offset) && !Stale(pin, item.root, x.source)
      && x.id == item.root.id && x.binding == Binding(item.root)
  {
  }

  // ---- bindings ------------------------------------------------------------------------------------

  /** Two roots have one binding exactly when they ask for the same room of the same configuration,
      as long as no configuration is named with a #. */
  lemma BindingTells(r: Root, s: Root)
    requires '#' !in r.config && '#' !in s.config
    ensures Binding(r) == Binding(s) <==> r.config == s.config && r.key == s.key
  {
    var a, b := Binding(r), Binding(s);
    if a == b {
      assert a[|r.config|] == '#' && b[|s.config|] == '#';
      assert forall k :: 0 <= k < |r.config| ==> a[k] == r.config[k];
      assert forall k :: 0 <= k < |s.config| ==> b[k] == s.config[k];
      assert a[..|r.config|] == r.config && b[..|s.config|] == s.config;
      assert a[|r.config| + 1..] == r.key && b[|s.config| + 1..] == s.key;
    }
  }

  // ---- no root is forgotten ------------------------------------------------------------------------

  lemma {:induction false} FoundGrows(e: Expansion, items: seq<Pending>, n: nat)
    requires n <= |items|
    ensures Discovered(e, items[..n]) <= Discovered(e, items)
    decreases |items|
  {
    hide Resolve, Select, Admitted, Children;
    if n == |items| {
      assert items[..n] == items;
    } else {
      assert items[..|items| - 1][..n] == items[..n];
      FoundGrows(e, items[..|items| - 1], n);
    }
  }

  /** The roots of the base are found. */
  lemma BaseRootsFound(e: Expansion, items: seq<Pending>, root: Root)
    requires root in e.req.cat.roots(e.req.base, Point(0, 0, 0), "")
    ensures exists q :: q in Discovered(e, items) && q.root == root && q.ancestry == [] && q.depth == 0
  {
    hide Resolve, Select, Admitted, Children;
    FoundGrows(e, items, 0);
    var roots := e.req.cat.roots(e.req.base, Point(0, 0, 0), "");
    var k :| 0 <= k < |roots| && roots[k] == root;
    assert items[..0] == [] && Discovered(e, [])[k] == Pending(root, [], 0);
    assert Discovered(e, items)[k] == Pending(root, [], 0);
  }

  /** As long as fewer than 4096 roots are found, all roots of every placed module are among them,
      each with the bindings on the way to it. */
  lemma ModuleRootsFound(e: Expansion, items: seq<Pending>, n: nat, root: Root)
    requires n < |items| && LastPlaced(e, items[..n + 1]).Some? && |Discovered(e, items)| < 4096
    requires var x := LastPlaced(e, items[..n + 1]).value; root in e.req.cat.roots(x.source, x.offset, x.id)
    ensures exists q :: q in Discovered(e, items) && q.root == root &&
                        q.ancestry == items[n].ancestry + [Binding(items[n].root)] && q.depth == items[n].depth + 1
  {
    hide Resolve, Select, Binding;
    var line := items[..n + 1];
    assert line[..|line| - 1] == items[..n] && line[|line| - 1] == items[n];
    FoundGrows(e, items, n + 1);
    var x := LastPlaced(e, line).value;
    var roots := e.req.cat.roots(x.source, x.offset, x.id);
    var k :| 0 <= k < |roots| && roots[k] == root;
    var before, q := |Discovered(e, items[..n])|, Pending(root, items[n].ancestry + [Binding(items[n].root)],
                                                          items[n].depth + 1);
    var kids := Children(e, items[n], x);
    assert |Discovered(e, line)| == before + |Admitted(kids, before)|;
    assert Admitted(kids, before) == kids;
    assert Discovered(e, line)[before + k] == kids[k] == q;
    assert Discovered(e, items)[before + k] == q;
  }

  // ---- the layers of a composition -----------------------------------------------------------------

  lemma {:induction false} PlacementsAreGrids(e: Expansion, items: seq<Pending>)
    requires LoadsGrids(e.req.cat)
    ensures forall x :: x in PlacementsOf(e, items) ==> OnePerPoint(x.source)
  {
    hide Select, LoadsGrids, OnePerPoint;
    if items != [] {
      PlacementsAreGrids(e, items[..|items| - 1]);
      var item, choices := items[|items| - 1], ChoicesAfter(e, items[..|items| - 1]);
      if Resolve(e, choices, item).Some? { ResolvedFacts(e, choices, item); }
    }
  }

  /** The modules and fixed templates of a composition are layers that ComposeMeaning speaks of. */
  lemma ComposedLayersOk(e: Expansion, items: seq<Pending>)
    requires RequestOk(e.req)
    ensures LayersOk(Layers(Modular, PlacementsOf(e, items)) + Layers(Fixed, e.req.fixed))
  {
    hide OnePerPoint, LoadsGrids, PlacementsOf;
    PlacementsAreGrids(e, items);
    var ms, fs := Layers(Modular, PlacementsOf(e, items)), Layers(Fixed, e.req.fixed);
    forall l | l in ms + fs ensures IsLaid(l) && OnePerPoint(l.x.source) {
      if l in ms {
        var k :| 0 <= k < |ms| && ms[k] == l;
        assert PlacementsOf(e, items)[k] in PlacementsOf(e, items);
      } else {
        var k :| 0 <= k < |fs| && fs[k] == l;
        assert e.req.fixed[k] in e.req.fixed;
      }
    }
  }

  // ---- composing again -----------------------------------------------------------------------------

  /** Root names are unique among the visited roots. */
  ghost predicate IdsDiffer(items: seq<Pending>) {
    forall i, j :: 0 <= i < j < |items| ==> items[i].root.id != items[j].root.id
  }

  /** A refreshed pin selects the same source again and is refreshed to itself; a root without a
      selection stays without one. */
  lemma RefreshedPinHolds(e: Expansion, before: map<string, Choice>, after: map<string, Choice>, item: Pending)
    requires item.root.id in before <==> item.root.id in after
    requires item.root.id in before ==>
      after[item.root.id] == Refreshed(before, item.root, Select(e, before, item))[item.root.id]
    ensures Resolve(e.(choices := after), after, item) == Resolve(e, before, item)
    ensures Refreshed(after, item.root, Select(e.(choices := after), after, item)) == after
  {
  }

  lemma {:induction false} PinKept(e: Expansion, items: seq<Pending>, n: nat, id: string)
    requires n <= |items| && forall m :: n <= m < |items| ==> items[m].root.id != id
    ensures id in ChoicesAfter(e, items) <==> id in ChoicesAfter(e, items[..n])
    ensures id in ChoicesAfter(e, items) ==> ChoicesAfter(e, items)[id] == ChoicesAfter(e, items[..n])[id]
    decreases |items|
  {
    hide Select;
    if n == |items| {
      assert items[..n] == items;
    } else {
      assert items[..|items| - 1][..n] == items[..n];
      PinKept(e, items[..|items| - 1], n, id);
    }
  }

  lemma {:induction false} PinsNeverAppear(e: Expansion, items: seq<Pending>)
    ensures ChoicesAfter(e, items).Keys == e.choices.Keys
  {
    hide Select;
    if items != [] {
      PinsNeverAppear(e, items[..|items| - 1]);
      SelectedIsPinned(e, ChoicesAfter(e, items[..|items| - 1]), items[|items| - 1]);
    }
  }

  lemma SelectedIsPinned(e: Expansion, choices: map<string, Choice>, item: Pending)
    ensures Select(e, choices, item).Some? && Select(e, choices, item).value.pinned ==> item.root.id in choices
  {
  }

  /** Where the n-th visited root of the second composition finds what the first left behind. */
  lemma SameAgain(e: Expansion, items: seq<Pending>, n: nat)
    requires n < |items| && IdsDiffer(items)
    ensures var before, after, item := ChoicesAfter(e, items[..n]), ChoicesAfter(e, items), items[n];
      && Resolve(e.(choices := after), after, item) == Resolve(e, before, item)
      && Refreshed(after, item.root, Select(e.(choices := after), after, item)) == after
  {
    hide Select, Resolve, Refreshed;
    var before, after, item := ChoicesAfter(e, items[..n]), ChoicesAfter(e, items), items[n];
    PinsNeverAppear(e, items[..n]);
    PinsNeverAppear(e, items);
    PinKept(e, items, n + 1, item.root.id);
    assert items[..n + 1][..n] == items[..n];
    RefreshedPinHolds(e, before, after, item);
  }

  lemma {:induction false} SecondPrefix(e: Expansion, items: seq<Pending>, n: nat)
    requires n <= |items| && IdsDiffer(items)
    ensures var again := e.(choices := ChoicesAfter(e, items));
      && ChoicesAfter(again, items[..n]) == again.choices
      && PlacementsOf(again, items[..n]) == PlacementsOf(e, items[..n])
      && Discovered(again, items[..n]) == Discovered(e, items[..n])
      && (InOrder(e, items[..n]) ==> InOrder(again, items[..n]))
    decreases n
  {
    hide Select, Resolve, Refreshed, Admitted, IdsDiffer;
    var again := e.(choices := ChoicesAfter(e, items));
    if n > 0 {
      SecondPrefix(e, items, n - 1);
      SameAgain(e, items, n - 1);
      assert items[..n][..n - 1] == items[..n - 1];
    }
  }

  /** Composing again with the choices a composition leaves behind visits the same roots, places the
      same modules and changes no choice: a refreshed pin is never stale on unchanged content. */
  lemma ComposingAgain(e: Expansion, items: seq<Pending>)
    requires Complete(e, items) && IdsDiffer(items)
    ensures var again := e.(choices := ChoicesAfter(e, items));
      Complete(again, items) && PlacementsOf(again, items) == PlacementsOf(e, items)
      && ChoicesAfter(again, items) == again.choices
  {
    hide InOrder, Discovered, PlacementsOf, ChoicesAfter;
    SecondPrefix(e, items, |items|);
    assert items[..|items|] == items;
  }
}
