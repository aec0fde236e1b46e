/**
 The navigation rail of the dashboard (components/dashboard/NavRail.tsx):
 which entries of the table are visible, the per-rail `openParents` state
 that a press on an expandable entry toggles, and the dispatch of a press
 between that toggle and the `onSelect` callback.
 */
module NavRail {
  import opened Dashboard

  /** `openParents[k]` read as a boolean: an absent key is false. */
  predicate Opened(m: map<string, bool>, k: string)
    ensures k !in m ==> !Opened(m, k)
    ensures Opened(m, k) ==> k in m && m[k]
  {
    k in m && m[k]
  }

  /** The state the rail starts with: only `manage` is open. */
  function InitialOpenParents(): (m: map<string, bool>)
    ensures Opened(m, "manage")
    ensures forall k :: k != "manage" ==> !Opened(m, k)
  {
    map["manage" := true]
  }

  /** The new `openParents` after toggling `k`. */
  function Toggled(m: map<string, bool>, k: string): (r: map<string, bool>)
    ensures Opened(r, k) == !Opened(m, k)
    ensures r.Keys == m.Keys + {k}
    ensures forall k' :: k' in m && k' != k ==> r[k'] == m[k']
  {
    m[k := !Opened(m, k)]
  }

  /** Toggling the same key twice gives back its original truth value and touches nothing else. */
  lemma ToggleTwiceRestores(m: map<string, bool>, k: string)
    ensures forall x :: Opened(Toggled(Toggled(m, k), k), x) == Opened(m, x)
    ensures k in m ==> Toggled(Toggled(m, k), k) == m
  {
    var r := Toggled(Toggled(m, k), k);
    if k in m {
      assert r.Keys == m.Keys;
      assert forall x :: x in m ==> r[x] == m[x];
    }
  }

  /** Toggles of two different keys do not interfere. */
  lemma ToggleCommutes(m: map<string, bool>, a: string, b: string)
    requires a != b
    ensures Toggled(Toggled(m, a), b) == Toggled(Toggled(m, b), a)
  {
  }

  /** The first entry of `t` whose key is `k`, as `Array.prototype.find` returns it. */
  function FindByKey(t: seq<NavEntry>, k: string): (r: Option<NavEntry>)
    ensures r.None? <==> forall j :: 0 <= j < |t| ==> t[j].key != k
    ensures r.Some? ==> r.value in t && r.value.key == k
  {
    if t == [] then None
    else if t[0].key == k then Some(t[0])
    else FindByKey(t[1..], k)
  }

  lemma {:induction false} FindByKeyFirstMatch(t: seq<NavEntry>, k: string, i: nat)
    requires i < |t| && t[i].key == k
    requires forall j :: 0 <= j < i ==> t[j].key != k
    ensures FindByKey(t, k) == Some(t[i])
  {
    if i > 0 {
      FindByKeyFirstMatch(t[1..], k, i - 1);
    }
  }

  lemma {:induction false} FindByKeyNoMatch(t: seq<NavEntry>, k: string)
    requires forall j :: 0 <= j < |t| ==> t[j].key != k
    ensures FindByKey(t, k) == None
  {
    if t != [] {
      FindByKeyNoMatch(t[1..], k);
    }
  }

  /** The `parent` of the first entry keyed `activeKey`; none when no entry matches or the match is a root. */
  function ActiveParentOf(t: seq<NavEntry>, activeKey: string): (r: Option<string>)
    ensures (forall j :: 0 <= j < |t| ==> t[j].key != activeKey) ==> r == None
    ensures r.Some? ==> exists e :: e in t && e.key == activeKey && e.parent == r
  {
    match FindByKey(t, activeKey)
    case None => None
    case Some(e) => e.parent
  }

  /** The active parent is the `parent` of the first entry keyed `activeKey`. */
  lemma ActiveParentFirstMatch(t: seq<NavEntry>, activeKey: string, i: nat)
    requires i < |t| && t[i].key == activeKey
    requires forall j :: 0 <= j < i ==> t[j].key != activeKey
    ensures ActiveParentOf(t, activeKey) == t[i].parent
  {
    FindByKeyFirstMatch(t, activeKey, i);
  }

  /** With no entry keyed `activeKey`, there is no active parent. */
  lemma ActiveParentNoMatch(t: seq<NavEntry>, activeKey: string)
    requires forall j :: 0 <= j < |t| ==> t[j].key != activeKey
    ensures ActiveParentOf(t, activeKey) == None
  {
    FindByKeyNoMatch(t, activeKey);
  }

  /** In a table with unique keys, the active parent is the parent of the one entry keyed `activeKey`. */
  lemma ActiveParentUnique(t: seq<NavEntry>, activeKey: string, i: nat)
    requires UniqueKeys(t)
    requires i < |t| && t[i].key == activeKey
    ensures ActiveParentOf(t, activeKey) == t[i].parent
  {
    ActiveParentFirstMatch(t, activeKey, i);
  }

  /** The predicate of `navItems.filter`: roots always, a child of P when P is open or on the active path, and, collapsed, only on the active path. */
  predicate Shown(e: NavEntry, activeKey: string, activeParent: Option<string>, collapsed: bool, m: map<string, bool>)
    ensures !IsChild(e) ==> Shown(e, activeKey, activeParent, collapsed, m)
    ensures IsChild(e) && !collapsed && Opened(m, e.parent.value) ==> Shown(e, activeKey, activeParent, collapsed, m)
    ensures IsChild(e) && collapsed && Shown(e, activeKey, activeParent, collapsed, m) ==>
              activeParent == e.parent || activeKey == e.parent.value
  {
    if IsChild(e) then
      var p := e.parent.value;
      var onActivePath := activeParent == Some(p) || activeKey == p;
      (Opened(m, p) || onActivePath) && (!collapsed || onActivePath)
    else
      true
  }

  /** `r` is a subsequence of `s`: `s` with some elements removed and the rest in order. */
  predicate IsSubseq<T(==)>(r: seq<T>, s: seq<T>)
    decreases |s|
  {
    if r == [] then true
    else if s == [] then false
    else (r[0] == s[0] && IsSubseq(r[1..], s[1..])) || IsSubseq(r, s[1..])
  }

  lemma {:induction false} SubseqMembers<T>(r: seq<T>, s: seq<T>)
    requires IsSubseq(r, s)
    ensures |r| <= |s|
    ensures forall x :: x in r ==> x in s
    decreases |s|
  {
    if r != [] {
      if r[0] == s[0] && IsSubseq(r[1..], s[1..]) {
        SubseqMembers(r[1..], s[1..]);
        forall x | x in r ensures x in s {
          if x != r[0] {
            assert x in r[1..];
          }
        }
      } else {
        SubseqMembers(r, s[1..]);
      }
    }
  }

  /** Dropping entries cannot create a duplicate key. */
  lemma {:induction false} SubseqKeepsUniqueKeys(r: seq<NavEntry>, s: seq<NavEntry>)
    requires IsSubseq(r, s) && UniqueKeys(s)
    ensures UniqueKeys(r)
    decreases |s|
  {
    if r != [] {
      assert UniqueKeys(s[1..]) by {
        forall i, j | 0 <= i < j < |s[1..]| ensures s[1..][i].key != s[1..][j].key {
          assert s[1..][i] == s[i + 1] && s[1..][j] == s[j + 1];
        }
      }
      if r[0] == s[0] && IsSubseq(r[1..], s[1..]) {
        SubseqKeepsUniqueKeys(r[1..], s[1..]);
        SubseqMembers(r[1..], s[1..]);
        forall i, j | 0 <= i < j < |r| ensures r[i].key != r[j].key {
          if i == 0 {
            assert r[j] == r[1..][j - 1];
            assert r[j] in s[1..];
            var k :| 0 <= k < |s[1..]| && s[1..][k] == r[j];
            assert s[k + 1] == r[j];
          } else {
            assert r[i] == r[1..][i - 1] && r[j] == r[1..][j - 1];
          }
        }
      } else {
        SubseqKeepsUniqueKeys(r, s[1..]);
      }
    }
  }

  /** The filter itself: an order-preserving selection of exactly the entries `Shown` admits. */
  function FilterShown(t: seq<NavEntry>, activeKey: string, activeParent: Option<string>,
                       collapsed: bool, m: map<string, bool>): (r: seq<NavEntry>)
    ensures IsSubseq(r, t)
    ensures forall e :: e in r <==> e in t && Shown(e, activeKey, activeParent, collapsed, m)
    ensures forall e :: multiset(r)[e] == if Shown(e, activeKey, activeParent, collapsed, m) then multiset(t)[e] else 0
  {
    if t == [] then []
    else
      var rest := FilterShown(t[1..], activeKey, activeParent, collapsed, m);
      assert forall e :: e in t <==> e == t[0] || e in t[1..];
      assert t == [t[0]] + t[1..];
      if Shown(t[0], activeKey, activeParent, collapsed, m) then
        assert ([t[0]] + rest)[1..] == rest;
        [t[0]] + rest
      else
        rest
  }

  /** A filter whose predicate admits every entry returns the table unchanged. */
  lemma {:induction false} FilterShownAll(t: seq<NavEntry>, activeKey: string, activeParent: Option<string>,
                                          collapsed: bool, m: map<string, bool>)
    requires forall i :: 0 <= i < |t| ==> Shown(t[i], activeKey, activeParent, collapsed, m)
    ensures FilterShown(t, activeKey, activeParent, collapsed, m) == t
  {
    if t != [] {
      FilterShownAll(t[1..], activeKey, activeParent, collapsed, m);
      assert [t[0]] + t[1..] == t;
    }
  }

  /** `visibleItems`: the entries of `t` the rail renders. */
  function Visible(t: seq<NavEntry>, activeKey: string, collapsed: bool, m: map<string, bool>): (r: seq<NavEntry>)
    ensures IsSubseq(r, t)
    ensures forall e :: e in r <==> e in t && Shown(e, activeKey, ActiveParentOf(t, activeKey), collapsed, m)
  {
    FilterShown(t, activeKey, ActiveParentOf(t, activeKey), collapsed, m)
  }

  /** Nothing is added, reordered or duplicated. */
  lemma VisibleIsOrderedSelection(t: seq<NavEntry>, activeKey: string, collapsed: bool, m: map<string, bool>)
    requires UniqueKeys(t)
    ensures IsSubseq(Visible(t, activeKey, collapsed, m), t)
    ensures |Visible(t, activeKey, collapsed, m)| <= |t|
    ensures UniqueKeys(Visible(t, activeKey, collapsed, m))
  {
    var r := Visible(t, activeKey, collapsed, m);
    SubseqMembers(r, t);
    SubseqKeepsUniqueKeys(r, t);
  }

  /** A root entry is visible whatever the active key, the display mode and the open parents are. */
  lemma RootsAlwaysVisible(t: seq<NavEntry>, activeKey: string, collapsed: bool, m: map<string, bool>, e: NavEntry)
    requires e in t && !IsChild(e)
    ensures e in Visible(t, activeKey, collapsed, m)
  {
  }

  /** The child rule, both directions. */
  lemma ChildVisibleIff(t: seq<NavEntry>, activeKey: string, collapsed: bool, m: map<string, bool>, e: NavEntry)
    requires e in t && IsChild(e)
    ensures var p := e.parent.value;
            var ap := ActiveParentOf(t, activeKey);
            e in Visible(t, activeKey, collapsed, m) <==>
              (Opened(m, p) || ap == Some(p) || activeKey == p) && (!collapsed || ap == Some(p) || activeKey == p)
  {
  }

  /** Collapsed, a child of P unrelated to the active entry is hidden even when P is open. */
  lemma CollapsedHidesUnrelated(t: seq<NavEntry>, activeKey: string, m: map<string, bool>, e: NavEntry)
    requires e in t && IsChild(e)
    requires activeKey != e.parent.value && ActiveParentOf(t, activeKey) != e.parent
    ensures e !in Visible(t, activeKey, true, m)
  {
  }

  /** Not collapsed, every child of an open parent is visible. */
  lemma OpenParentShowsChildren(t: seq<NavEntry>, activeKey: string, m: map<string, bool>, e: NavEntry)
    requires e in t && IsChild(e) && Opened(m, e.parent.value)
    ensures e in Visible(t, activeKey, false, m)
  {
  }

  /** Not collapsed, a child of a closed parent that is not on the active path is hidden. */
  lemma ClosedUnrelatedChildHidden(t: seq<NavEntry>, activeKey: string, m: map<string, bool>, e: NavEntry)
    requires e in t && IsChild(e) && !Opened(m, e.parent.value)
    requires activeKey != e.parent.value && ActiveParentOf(t, activeKey) != e.parent
    ensures e !in Visible(t, activeKey, false, m)
  {
  }

  /** A closed child stays visible while a sibling is active: the active parent is the shared parent. */
  lemma SiblingActiveKeepsChildVisible()
    ensures var m := map["manage" := false];
            var batches := navItems[2];
            batches.key != "packages" && !Opened(m, "manage") &&
            batches in Visible(navItems, "packages", false, m)
  {
    NavItemsUniqueKeys();
    ActiveParentUnique(navItems, "packages", 3);
    var m := map["manage" := false];
    var batches := navItems[2];
    assert ActiveParentOf(navItems, "packages") == Some("manage");
    assert Shown(batches, "packages", Some("manage"), false, m);
    assert batches in navItems;
  }

  /** Toggling `k` changes the visibility of the children of `k` only. */
  lemma ToggleAffectsOnlyChildren(t: seq<NavEntry>, activeKey: string, collapsed: bool,
                                  m: map<string, bool>, k: string, e: NavEntry)
    requires e in t && !ChildOf(e, k)
    ensures e in Visible(t, activeKey, collapsed, Toggled(m, k)) <==> e in Visible(t, activeKey, collapsed, m)
  {
  }

  /** Every child of the table has parent `manage`, which starts open, so the initial state admits every entry. */
  lemma InitialAdmits(e: NavEntry, activeKey: string, activeParent: Option<string>)
    requires e in navItems
    ensures Shown(e, activeKey, activeParent, false, InitialOpenParents())
  {
    assert IsChild(e) ==> e.parent == Some("manage");
  }

  /** From the initial state and not collapsed, the rail shows the whole table, whatever the active key. */
  lemma InitialExpandedShowsAll(activeKey: string)
    ensures Visible(navItems, activeKey, false, InitialOpenParents()) == navItems
  {
    var ap := ActiveParentOf(navItems, activeKey);
    forall i | 0 <= i < |navItems|
      ensures Shown(navItems[i], activeKey, ap, false, InitialOpenParents())
    {
      InitialAdmits(navItems[i], activeKey, ap);
    }
    FilterShownAll(navItems, activeKey, ap, false, InitialOpenParents());
  }

  /** The scenario of `batches` active in the initial, expanded rail: all twelve entries in declared order. */
  lemma BatchesScenario()
    ensures ActiveParentOf(navItems, "batches") == Some("manage")
    ensures Visible(navItems, "batches", false, InitialOpenParents()) == navItems
    ensures |Visible(navItems, "batches", false, InitialOpenParents())| == 12
  {
    NavItemsUniqueKeys();
    ActiveParentUnique(navItems, "batches", 2);
    InitialExpandedShowsAll("batches");
  }

  /** What a press on an entry asks for. */
  datatype PressOutcome = ToggleParent(key: string) | Select(key: string, path: Option<string>)

  /** The `onPress` handler: an expandable entry toggles its own key, any other forwards its key and path. */
  function PressAction(e: NavEntry): (a: PressOutcome)
    ensures a.ToggleParent? <==> e.expandable
    ensures a.key == e.key
    ensures a.Select? ==> a.path == e.path
  {
    if e.expandable then ToggleParent(e.key) else Select(e.key, e.path)
  }

  /** In the table, only a press on `manage` toggles; every other press forwards a concrete path. */
  lemma TablePressDispatch(e: NavEntry)
    requires e in navItems
    ensures PressAction(e).ToggleParent? <==> e.key == "manage"
    ensures PressAction(e).Select? ==> PressAction(e).path.Some?
  {
    ManageIsTheOnlyExpandable();
    NavItemsPathsPresent();
  }

  /** A recorded call of the `onSelect` callback. */
  datatype SelectCall = SelectCall(key: string, path: Option<string>)

  /** One mounted rail: its `openParents` state and the `onSelect` calls it has made. */
  class Rail {
    var openParents: map<string, bool>
    var calls: seq<SelectCall>

    constructor ()
      ensures openParents == InitialOpenParents() && Opened(openParents, "manage")
      ensures calls == []
    {
      openParents := InitialOpenParents();
      calls := [];
    }

    /** The entries this rail renders for the given props. */
    function VisibleItems(activeKey: string, collapsed: bool): (r: seq<NavEntry>)
      reads this
      ensures IsSubseq(r, navItems)
      ensures forall e :: e in r <==> e in navItems && Shown(e, activeKey, ActiveParentOf(navItems, activeKey), collapsed, openParents)
      ensures !collapsed ==> forall e :: e in navItems && Opened(openParents, "manage") ==> e in r
    {
      assert forall e :: e in navItems && IsChild(e) ==> e.parent == Some("manage");
      Visible(navItems, activeKey, collapsed, openParents)
    }

    /** `toggleParent`: flip one key of `openParents`. */
    method ToggleParentKey(k: string)
      modifies this`openParents
      ensures openParents == Toggled(old(openParents), k)
      ensures Opened(openParents, k) == !old(Opened(openParents, k))
      ensures forall x :: x != k ==> Opened(openParents, x) == old(Opened(openParents, x))
    {
      openParents := Toggled(openParents, k);
    }

    /**
     `onPress` of an entry: a toggle for an expandable entry, otherwise one
     `onSelect` call with its key and path. `hasOnSelect` is the render's
     `onSelect` prop being supplied.
     */
    method Press(e: NavEntry, hasOnSelect: bool)
      modifies this
      ensures e.expandable ==> openParents == Toggled(old(openParents), e.key) && calls == old(calls)
      ensures !e.expandable ==> openParents == old(openParents) &&
                                calls == old(calls) + (if hasOnSelect then [SelectCall(e.key, e.path)] else [])
    {
      match PressAction(e)
      case ToggleParent(k) =>
        ToggleParentKey(k);
      case Select(k, p) =>
        if hasOnSelect {
          calls := calls + [SelectCall(k, p)];
        }
    }
  }
}
