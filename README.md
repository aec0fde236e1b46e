# Dashboard navigation rail: a verified model

This project models the navigation rail of the tracechain mobile dashboard and proves properties of it. The rail is the component `NavRail`. It reads a static table of menu entries, `navItems`. Some entries are children: they name a `parent` entry, and the parent is an `expandable` root.

The rail computes which entries are visible from four inputs:
- the entry table;
- the active key, which the hosting screen supplies;
- the `collapsed` display flag;
- its own `openParents` map, which says which parents are open.

A press on an expandable entry toggles that entry's key in `openParents`. A press on any other entry forwards its key and path to the optional `onSelect` callback.

Layout:
- `dashboard.dfy` (module `Dashboard`) holds the entry datatype, the twelve-entry `navItems` table and its well-formedness predicates. It also proves that the table satisfies them.
- `navrail.dfy` (module `NavRail`) holds the rest:
  - the `find` lookup of the active parent;
  - the visibility filter, as a pure function;
  - the toggle, as a function on maps;
  - the press dispatch;
  - a class `Rail` for one mounted rail. It keeps the `openParents` map and a log of the `onSelect` calls made.

Two JavaScript behaviours are modelled explicitly. An entry counts as a child only when its `parent` is truthy: present and not the empty string (`IsChild`). A key missing from `openParents` reads as false (`Opened`).

A child of a closed parent `P` is still shown when the active key is a sibling of that child. The lookup at components/dashboard/NavRail.tsx:19 then yields `P` as the active parent, and the child rule at line 22 admits every child of the active parent. `NavRail.ClosedUnrelatedChildHidden` states when a child of a closed parent is hidden: the parent is neither the active key nor the active parent. `NavRail.SiblingActiveKeepsChildVisible` shows the sibling case on the real table: `batches` stays visible with `manage` closed while `packages` is active.

## Model

| member | source | states |
|---|---|---|
| `Dashboard.IsChild` | components/dashboard/NavRail.tsx:21 | an entry counts as a child only when its `parent` is truthy: an absent or empty parent makes it a root |
| `Dashboard.NavItemsKeysInOrder` | constants/dashboard.ts:94-107 | the `navItems` table has twelve entries, keyed dashboard, manage, batches, packages, products, categories, qr, shipments, analytics, settings, register, logout, in that order |
| `Dashboard.NavItemsUniqueKeys` | constants/dashboard.ts:94-107 | no two entries of the table share a key |
| `Dashboard.NavItemsParentsResolve` | constants/dashboard.ts:96-100 | every child's parent key names a root entry of the table that is expandable |
| `Dashboard.NavItemsExpandableOwnChildren` | constants/dashboard.ts:96-100 | every expandable entry is a root and owns at least one child |
| `Dashboard.NavItemsPathsPresent` | constants/dashboard.ts:95-106 | every entry of the table has a path |
| `Dashboard.NavItemsWellFormed` | constants/dashboard.ts:94-107 | the table meets all four well-formedness rules at once |
| `Dashboard.NoChildIsAParent` | constants/dashboard.ts:96-100 | in any well-formed table the depth is one: no child is expandable and no child is named as another entry's parent |
| `Dashboard.ManageIsTheOnlyExpandable` | constants/dashboard.ts:96 | an entry is expandable exactly when its key is `manage`, and `manage` is a root |
| `Dashboard.ManageChildrenContiguous` | constants/dashboard.ts:96-100 | the children of `manage` are exactly the four entries right after it: batches, packages, products, categories, in that order |
| `NavRail.Opened` | components/dashboard/NavRail.tsx:22 | reading `openParents[k]` as a boolean: a key missing from the map reads as false, and a true reading means the key is present and mapped to true |
| `NavRail.InitialOpenParents` | components/dashboard/NavRail.tsx:16 | the initial state has `manage` open and every other key closed |
| `NavRail.Toggled` | components/dashboard/NavRail.tsx:29-31 | toggling negates the truth value of the key (absent reads as false), adds only that key to the domain and keeps every other value |
| `NavRail.ToggleTwiceRestores` | components/dashboard/NavRail.tsx:29-31 | two toggles of one key restore every key's truth value, and restore the map itself when the key was present |
| `NavRail.ToggleCommutes` | components/dashboard/NavRail.tsx:29-31 | toggles of two different keys give the same state in either order |
| `NavRail.FindByKey` | components/dashboard/NavRail.tsx:19 | the `find` lookup returns nothing exactly when no entry has the key, and otherwise an entry of the table with that key. `FindByKeyFirstMatch` and `FindByKeyNoMatch` pin its result down |
| `NavRail.ActiveParentOf` | components/dashboard/NavRail.tsx:19 | the active parent is absent when no entry has the active key; when present, it is the parent of an entry with the active key. `ActiveParentFirstMatch` and `ActiveParentNoMatch` pin it down |
| `NavRail.FindByKeyFirstMatch` | components/dashboard/NavRail.tsx:19 | the lookup returns the first entry whose key matches |
| `NavRail.FindByKeyNoMatch` | components/dashboard/NavRail.tsx:19 | the lookup returns nothing when no key matches |
| `NavRail.ActiveParentFirstMatch` | components/dashboard/NavRail.tsx:19 | the active parent is the `parent` of the first entry keyed by the active key (absent when that entry is a root) |
| `NavRail.ActiveParentNoMatch` | components/dashboard/NavRail.tsx:19 | there is no active parent when no entry has the active key |
| `NavRail.ActiveParentUnique` | components/dashboard/NavRail.tsx:19 | with unique keys, the active parent is the parent of the one matching entry |
| `NavRail.Shown` | components/dashboard/NavRail.tsx:20-25 | the filter predicate admits every root, and, not collapsed, every child of an open parent. Collapsed, it admits a child only when its parent is the active parent or the active key. `ChildVisibleIff` gives the rule in both directions |
| `NavRail.FilterShown` | components/dashboard/NavRail.tsx:20-26 | the filter's output is a subsequence of the table. An entry the predicate admits appears in it exactly as often as in the table, and an entry the predicate rejects does not appear at all |
| `NavRail.FilterShownAll` | components/dashboard/NavRail.tsx:20-26 | when the predicate admits every entry, the output is the table itself |
| `NavRail.Visible` | components/dashboard/NavRail.tsx:18-27 | `visibleItems` is a subsequence of the table holding exactly the entries that the predicate admits, for the active parent that the lookup finds |
| `NavRail.VisibleIsOrderedSelection` | components/dashboard/NavRail.tsx:18-27 | the visible list keeps the table's order, is no longer than the table and has no duplicate keys |
| `NavRail.RootsAlwaysVisible` | components/dashboard/NavRail.tsx:21-25 | every root entry is visible for every active key, display mode and open-parents state |
| `NavRail.ChildVisibleIff` | components/dashboard/NavRail.tsx:22-23 | a child of P is visible iff (P is open, or P is the active parent, or P is the active key) and (not collapsed, or P is the active parent, or P is the active key) |
| `NavRail.CollapsedHidesUnrelated` | components/dashboard/NavRail.tsx:23 | collapsed, a child of P is hidden when P is neither the active key nor the active parent, even if P is open |
| `NavRail.OpenParentShowsChildren` | components/dashboard/NavRail.tsx:22-23 | not collapsed, every child of an open parent is visible |
| `NavRail.ClosedUnrelatedChildHidden` | components/dashboard/NavRail.tsx:22-23 | not collapsed, a child of a closed P is hidden when P is neither the active key nor the active parent |
| `NavRail.SiblingActiveKeepsChildVisible` | components/dashboard/NavRail.tsx:19-23 | with `manage` closed and `packages` active, `batches` is still visible |
| `NavRail.ToggleAffectsOnlyChildren` | components/dashboard/NavRail.tsx:18-31 | toggling key k changes the visibility of no entry other than the children of k |
| `NavRail.InitialAdmits` | components/dashboard/NavRail.tsx:16-23 | every child in the table has parent `manage`, which the initial state opens, so when not collapsed the filter predicate admits every table entry for any active key and active parent |
| `NavRail.InitialExpandedShowsAll` | components/dashboard/NavRail.tsx:16-27 | from the initial state, not collapsed, the visible list is the whole table, whatever the active key |
| `NavRail.BatchesScenario` | components/dashboard/NavRail.tsx:16-27 | with `batches` active in the initial, expanded rail, the active parent is `manage` and all 12 entries are visible in declared order |
| `NavRail.PressAction` | components/dashboard/NavRail.tsx:43-49 | a press toggles exactly when the entry is expandable, always names the pressed entry's key, and a select carries that entry's path unchanged |
| `NavRail.TablePressDispatch` | components/dashboard/NavRail.tsx:43-49 | on the table, only a press on `manage` toggles, and every other press forwards a concrete path |
| `NavRail.Rail.constructor` | components/dashboard/NavRail.tsx:16 | a new rail starts with `manage` open and no `onSelect` calls made |
| `NavRail.Rail.VisibleItems` | components/dashboard/NavRail.tsx:18-27 | the rail's rendered list is an ordered selection of `navItems` holding exactly the admitted entries. When not collapsed and `manage` is open, it holds every entry of the table |
| `NavRail.Rail.ToggleParentKey` | components/dashboard/NavRail.tsx:29-31 | the new state is the toggled old state: the key's value is negated and every other key keeps its truth value |
| `NavRail.Rail.Press` | components/dashboard/NavRail.tsx:43-49 | pressing an expandable entry toggles its key and makes no `onSelect` call. Pressing any other entry leaves the state alone and records one call with exactly its key and path, when the render supplies an `onSelect` callback |

## Left out

- The route classifier is left out. It lives in the screen files under app/(tabs)/ and maps the router's path to the active key by substring tests. The rail only receives the active key, so the model takes it as a parameter.
- The `/(tabs)` fallback route for a missing path is left out. It lives in each screen's `handleNavSelect`. The rail forwards `item.path` unchanged, and on this table the path is always present (`NavRail.TablePressDispatch`).
- Rendering is left out, because it is visual only. This covers styles, icons, label suppression in collapsed mode, the orientation layout and the highlight of the active entry. The chevron of an expandable entry reads `openParents[item.key]`, which is `Opened` in this model.
- `useMemo`/`useState` scheduling is left out. The functional update of `setOpenParents` is modelled as an immediate, sequential update of the `openParents` field. The router's navigation is external and is left out too.
- The table's `label` field is named `text` in the model, because `label` is a reserved word in Dafny. Icons are opaque strings.
- Keys inherited from the JavaScript object prototype are left out. For example, `openParents["constructor"]` is truthy in JavaScript. The model treats every key missing from the map as false.
- `NavRail.Rail.Press` accepts any entry. In the component, only a rendered (visible) entry can be pressed. Its behaviour does not depend on visibility, so the model does not require it.
- The non-navigation data in constants/dashboard.ts is left out: palette, metrics, recent products and alerts. So are the purely presentational components `HeaderBar`, `MetricCard` and `SectionCard`. They contain no logic.
