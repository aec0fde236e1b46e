/**
 The static navigation table of the dashboard rail (`navItems` in
 constants/dashboard.ts) and the well-formedness rules it obeys: unique keys,
 children that point at an expandable root, a hierarchy exactly one level
 deep, and a target path on every entry.
 */
module Dashboard {

  datatype Option<T> = None | Some(value: T)

  /** One entry of the rail (`text` is the source's `label`). An absent `expandable` flag reads as false. */
  datatype NavEntry = NavEntry(
    key: string,
    text: string,
    icon: string,
    path: Option<string>,
    parent: Option<string>,
    expandable: bool)

  const navItems: seq<NavEntry> := [
    NavEntry("dashboard", "Dashboard", "apps-outline", Some("/(tabs)"), None, false),
    NavEntry("manage", "Manage Products", "create-outline", Some("/(tabs)/manage"), None, true),
    NavEntry("batches", "Batches", "briefcase-outline", Some("/(tabs)/manage"), Some("manage"), false),
    NavEntry("packages", "Packages", "cube-outline", Some("/(tabs)/packages"), Some("manage"), false),
    NavEntry("products", "Products", "cube-outline", Some("/(tabs)/products"), Some("manage"), false),
    NavEntry("categories", "Product Categories", "pricetags-outline", Some("/(tabs)/categories"), Some("manage"), false),
    NavEntry("qr", "QR Scanner", "qr-code-outline", Some("/(tabs)"), None, false),
    NavEntry("shipments", "Shipments", "car-outline", Some("/(tabs)/shipments"), None, false),
    NavEntry("analytics", "Analytics", "analytics-outline", Some("/(tabs)"), None, false),
    NavEntry("settings", "Settings", "settings-outline", Some("/(tabs)"), None, false),
    NavEntry("register", "Register", "person-add-outline", Some("/(tabs)/register"), None, false),
    NavEntry("logout", "Logout", "log-out-outline", Some("/(tabs)"), None, false)
  ]

  /** An entry is a child when its `parent` is truthy: present and not the empty string. */
  predicate IsChild(e: NavEntry)
    ensures e.parent == None ==> !IsChild(e)
    ensures e.parent == Some("") ==> !IsChild(e)
    ensures IsChild(e) ==> e.parent.Some? && |e.parent.value| > 0
  {
    e.parent.Some? && e.parent.value != ""
  }

  /** Whether `e` is a child of the entry keyed `p`. */
  predicate ChildOf(e: NavEntry, p: string)
  {
    IsChild(e) && e.parent.value == p
  }

  predicate UniqueKeys(t: seq<NavEntry>)
  {
    forall i, j :: 0 <= i < j < |t| ==> t[i].key != t[j].key
  }

  /** Every child's parent key names a root entry of the table that is expandable. */
  predicate ParentsAreExpandableRoots(t: seq<NavEntry>)
  {
    forall i :: 0 <= i < |t| && IsChild(t[i]) ==>
      exists j :: 0 <= j < |t| && t[j].key == t[i].parent.value && t[j].expandable && !IsChild(t[j])
  }

  /** Only roots are expandable, and each expandable root owns at least one child. */
  predicate ExpandableAreParentRoots(t: seq<NavEntry>)
  {
    forall i :: 0 <= i < |t| && t[i].expandable ==>
      !IsChild(t[i]) && exists j :: 0 <= j < |t| && ChildOf(t[j], t[i].key)
  }

  predicate PathsPresent(t: seq<NavEntry>)
  {
    forall i :: 0 <= i < |t| ==> t[i].path.Some?
  }

  predicate WellFormed(t: seq<NavEntry>)
  {
    UniqueKeys(t) && ParentsAreExpandableRoots(t) && ExpandableAreParentRoots(t) && PathsPresent(t)
  }

  /** The children of the entry at index `at` are exactly the `n` entries right after it. */
  predicate ChildrenFollow(t: seq<NavEntry>, at: nat, n: nat)
  {
    at + n < |t| &&
    forall i :: 0 <= i < |t| ==> (ChildOf(t[i], t[at].key) <==> at < i <= at + n)
  }

  function Keys(t: seq<NavEntry>): (ks: seq<string>)
    ensures |ks| == |t|
    ensures forall i :: 0 <= i < |t| ==> ks[i] == t[i].key
  {
    if t == [] then [] else [t[0].key] + Keys(t[1..])
  }

  /** Length and first two letters: enough to tell the table's keys apart. */
  function Tag(s: string): (int, char, char)
  {
    if |s| < 2 then (|s|, ' ', ' ') else (|s|, s[0], s[1])
  }

  lemma NavItemsUniqueKeys()
    ensures UniqueKeys(navItems)
  {
    var tags := seq(|navItems|, i requires 0 <= i < |navItems| => Tag(navItems[i].key));
    assert tags == [(9, 'd', 'a'), (6, 'm', 'a'), (7, 'b', 'a'), (8, 'p', 'a'), (8, 'p', 'r'), (10, 'c', 'a'),
                    (2, 'q', 'r'), (9, 's', 'h'), (9, 'a', 'n'), (8, 's', 'e'), (8, 'r', 'e'), (6, 'l', 'o')];
    forall i, j | 0 <= i < j < |navItems| ensures navItems[i].key != navItems[j].key {
      assert tags[i] != tags[j];
    }
  }

  lemma NavItemsParentsResolve()
    ensures ParentsAreExpandableRoots(navItems)
  {
    forall i | 0 <= i < |navItems| && IsChild(navItems[i])
      ensures exists j :: 0 <= j < |navItems| && navItems[j].key == navItems[i].parent.value
                          && navItems[j].expandable && !IsChild(navItems[j])
    {
      assert navItems[i].parent == Some("manage");
      assert navItems[1].key == navItems[i].parent.value;
    }
  }

  lemma NavItemsExpandableOwnChildren()
    ensures ExpandableAreParentRoots(navItems)
  {
    forall i | 0 <= i < |navItems| && navItems[i].expandable
      ensures !IsChild(navItems[i]) && exists j :: 0 <= j < |navItems| && ChildOf(navItems[j], navItems[i].key)
    {
      assert i == 1;
      assert ChildOf(navItems[2], navItems[i].key);
    }
  }

  lemma NavItemsPathsPresent()
    ensures PathsPresent(navItems)
  {
  }

  lemma NavItemsWellFormed()
    ensures WellFormed(navItems)
  {
    NavItemsUniqueKeys();
    NavItemsPathsPresent();
    NavItemsParentsResolve();
    NavItemsExpandableOwnChildren();
  }

  /** The table has twelve entries, keyed in this declared order. */
  lemma NavItemsKeysInOrder()
    ensures |navItems| == 12
    ensures navItems[0].key == "dashboard" && navItems[1].key == "manage" && navItems[2].key == "batches"
    ensures navItems[3].key == "packages" && navItems[4].key == "products" && navItems[5].key == "categories"
    ensures navItems[6].key == "qr" && navItems[7].key == "shipments" && navItems[8].key == "analytics"
    ensures navItems[9].key == "settings" && navItems[10].key == "register" && navItems[11].key == "logout"
  {
  }

  /** Depth is exactly one: in a well-formed table no child is itself the parent of a child. */
  lemma {:induction false} NoChildIsAParent(t: seq<NavEntry>, i: nat, j: nat)
    requires WellFormed(t)
    requires i < |t| && j < |t| && IsChild(t[i]) && IsChild(t[j])
    ensures t[j].parent.value != t[i].key
    ensures !t[i].expandable
  {
    var k :| 0 <= k < |t| && t[k].key == t[j].parent.value && t[k].expandable && !IsChild(t[k]);
    assert k != i;
  }

  /** `manage` is the single expandable entry of the table, and it is a root. */
  lemma ManageIsTheOnlyExpandable()
    ensures forall i :: 0 <= i < |navItems| ==> (navItems[i].expandable <==> navItems[i].key == "manage")
    ensures navItems[1].key == "manage" && navItems[1].expandable && !IsChild(navItems[1])
  {
    NavItemsUniqueKeys();
  }

  /** The four children of `manage` directly follow it, in declared order. */
  lemma ManageChildrenContiguous()
    ensures navItems[1].key == "manage" && ChildrenFollow(navItems, 1, 4)
    ensures Keys(navItems[2..6]) == ["batches", "packages", "products", "categories"]
  {
  }
}
