# Tab-group composition, modelled in Dafny

This project models the one piece of logic in a themed React component kit: the tab group
(`Tabs`, `TabList`, `Tab`, `TabPanel` in `lib/components/tabs/tabs.jsx`).

`Tabs` receives its children and reduces them in declaration order. A `TabList` child has its
triggers cloned with the ids `tab-{baseId}-1`, `tab-{baseId}-2`, … and with the group's
orientation. Each top-level `TabPanel` is cloned with the next id from a panel counter that
starts at 1. Every other child is dropped. If the trigger count and the panel count disagree,
`Tabs` renders only an error notice that carries both counts. Otherwise it renders the container
with orientation `vertical` or `horizontal`. `Tab` chooses the classes of its selection indicator
from `isSelected`, `isDisabled` and the inherited orientation.

Files:

- `slot_ids.dfy` (module `SlotIds`): the id format `tab-{baseId}-{n}`, with `n` written in
  decimal. It proves that ids of different slots in one group differ.
- `tabs.dfy` (module `Tabs`): the children and output as datatypes. `Bound` is the reference
  fold, and `TriggerCount`/`PanelCount` are the two counters. `ComposeTabs` is `Tabs` itself: a
  loop over the children that updates the two counters and rebuilds the accumulator.
- `tabs_properties.dfy` (module `TabsProperties`): what the composition guarantees. This covers
  positional ids, pairing, the last-TabList rule, which children are kept and in what order, and
  orientation propagation.
- `tab_indicator.dfy` (module `TabIndicator`): `Tab`'s indicator decision as a set of abstract
  class tokens, checked against an independent statement of the intended indicator.

Node roles form a closed datatype (`TabListNode`, `TabPanelNode`, `OtherNode`). They stand in for
the source's comparison of `child.type.displayName` with `'TabList'` and `'TabPanel'`. `baseId`,
which the source takes from React's `useId`, is a parameter.

Behaviour of the code that the model keeps:

- Every non-empty TabList is emitted. Each TabList overwrites the trigger counter
  (`tabs.jsx:28`) before the empty-list return, so the last TabList alone decides the trigger
  count, and an empty last one resets it to 0 (`TriggerCount`, `TriggerCountIsLastTabList`).
  As a consequence, a non-empty TabList followed by an empty one, with no panel, passes the
  count check and renders two triggers that no panel pairs with
  (`UnpairedTriggersPassCheck`); and the triggers of two non-empty TabLists both start at slot 1,
  so their ids collide (`TabListsShareTriggerIds`).
- Falsy values are dropped only when a TabList's `children` is a single non-array value
  (`tabs.jsx:24-26`); an array is used as it is.

## Model

| member | source | states |
|---|---|---|
| `Tabs.ComposeTabs` | lib/components/tabs/tabs.jsx:12-100 | A lone child is treated as a one-element list. The result is the error notice exactly when the last TabList's item count differs from the number of TabPanels, and the notice then carries exactly those two counts. Otherwise the container holds the reduced children, with orientation `Vertical` and the two-column grid layout iff `vertical`. The loop invariants keep the panel counter equal to one more than the number of TabPanels seen, and the trigger counter one more than the last TabList's item count. |
| `Tabs.Emit` | lib/components/tabs/tabs.jsx:22-63 | A child contributes one clone iff it is a TabPanel or a TabList with at least one item, and nothing otherwise. The clone is keyed by the child's index. |
| `Tabs.BindTriggers` | lib/components/tabs/tabs.jsx:40-46 | Cloning the items of a TabList keeps their number. |
| `TabsProperties.TriggerBinding` | lib/components/tabs/tabs.jsx:40-46 | The trigger at 0-based position `i` keeps its element and gets id `tab-{baseId}-{i+1}`, key `i` and `isParentVertical == vertical`. So the trigger ids of one TabList are pairwise distinct. |
| `TabsProperties.SlotsDistinct` | lib/components/tabs/tabs.jsx:42-55 | The ids of slots 1..n of one group are pairwise distinct. |
| `TabsProperties.PanelIdsPositional` | lib/components/tabs/tabs.jsx:51-59 | The k-th TabPanel in declaration order (k ≥ 1) gets id `tab-{baseId}-{k}`. Exactly as many panels come out as TabPanels went in. |
| `TabsProperties.TriggerCountIsLastTabList` | lib/components/tabs/tabs.jsx:22-31 | The trigger count is the item count of the last TabList, whatever TabLists came before it, and 0 when there is no TabList. It is reassigned, not summed, and an empty last TabList resets it to 0. |
| `TabsProperties.LastTabListTriggers` | lib/components/tabs/tabs.jsx:28-45 | When the trigger count is positive, the last TabList in the output holds exactly that many triggers, with ids for slots 1..count in order. |
| `TabsProperties.ConsistentPairing` | lib/components/tabs/tabs.jsx:65-97 | When the counts agree (the container case), panel `i` and trigger `i` of the last TabList share the id `tab-{baseId}-{i+1}`, and these ids are pairwise distinct. |
| `TabsProperties.KeysIncreasing` | lib/components/tabs/tabs.jsx:33-62 | The kept children keep their relative declaration order: their keys strictly increase and are indexes of the input. |
| `TabsProperties.KeyedByIndex` | lib/components/tabs/tabs.jsx:33-59 | Every output child is the clone of the input child whose index is its key. |
| `TabsProperties.KeptExactly` | lib/components/tabs/tabs.jsx:29-62 | An input child appears in the output iff it is a TabPanel or a non-empty TabList. Empty TabLists and all other children are dropped. |
| `TabsProperties.OrientationPropagated` | lib/components/tabs/tabs.jsx:40-57 | Every trigger has `isParentVertical == vertical`. Every panel has the vertical-only border classes iff `vertical`. |
| `TabsProperties.SameItemsSameOutcome` | lib/components/tabs/tabs.jsx:24-28 | A TabList matters only through its item list. Replacing its children with others that give the same items changes neither the output nor either count. |
| `TabsProperties.LoneTabListChild` | lib/components/tabs/tabs.jsx:24-26 | A TabList's single non-array child is treated as a one-element item list. A falsy one is treated as an empty list. |
| `SlotIds.Decimal` | lib/components/tabs/tabs.jsx:42 | The rendering of a slot number is a non-empty string of decimal digits whose value, read most significant digit first, is the number, with no leading zero. |
| `SlotIds.SlotIdInjective` | lib/components/tabs/tabs.jsx:42-55 | Within one group, `tab-{baseId}-{m}` equals `tab-{baseId}-{n}` iff `m == n`. |
| `TabsProperties.UnpairedTriggersPassCheck` | lib/components/tabs/tabs.jsx:28-31 | For a non-empty TabList of two items followed by an empty TabList and no panel, both counts are 0, so no error notice is rendered, yet the output's last TabList holds two triggers and there are no panel ids. |
| `TabsProperties.TabListsShareTriggerIds` | lib/components/tabs/tabs.jsx:40-45 | Two one-item TabLists are both emitted, and their triggers both get the id `tab-{baseId}-1`. |
| `TabIndicator.TabClasses` | lib/components/tabs/tabs.jsx:133-152 | Horizontal triggers are anchored to the bottom edge and vertical ones to the left edge. A disabled trigger's indicator is hidden. A selected trigger's indicator has full opacity and scale 100. An enabled, unselected trigger's has opacity 0 and scale 75. Every scale token is on the Y axis when vertical and on X otherwise. |
| `TabIndicator.ClassesRealiseIntended` | lib/components/tabs/tabs.jsx:138-149 | For all three flags, the tokens give the intended indicator: its edge, its axis, and its visibility (hidden, resting or highlighted). |

## Left out

- `useId`: the group namespace `baseId` is a parameter. Uniqueness across instances belongs to React.
- react-aria-components: focus, keyboard navigation and selection state. `isSelected` and `isDisabled` are inputs to `TabClasses`.
- Class strings: `classnames` concatenation and the Tailwind text are abstract tokens (`TabIndicator.Token`) or flags (`OutTabPanel.verticalBorder`, `Layout`). The caller's `className` on `Tabs`, `Tab` and `TabPanel`, the TabList's own props that `cloneElement` keeps on the emitted TabList (`aria-label`, `className`, other props), the `...rest` props forwarded to the container, and the fixed classes of `TabList` and `TabPanel` (`tabs.jsx:104-176`) are not modelled.
- The notice text: `__`/`sprintf` translation and formatting, and the notice's `type`/`alignIconToTitle` props. `ErrorNotice` carries the two numbers the message embeds.
- Children on which the source throws are not representable in the datatypes, so the exception is not modelled:
  - at `child.type.displayName` (`tabs.jsx:23`): a `null`, `false` or `undefined` top-level child (as `{cond && <TabPanel/>}` produces), a string or number child, and a nested array among the top-level children (as `[<TabList/>, panels.map(...)]` produces);
  - `<Tabs>` with no children at all: `children` is `undefined`, becomes `[undefined]` (`tabs.jsx:20`) and throws at `tabs.jsx:23`. `ChildList([])` stands for an explicitly empty array (`{[]}`), which renders an empty container;
  - at `cloneElement` (`tabs.jsx:41`): a truthy non-element lone child of a TabList (a string or number), and a falsy entry or a nested array inside a TabList's children array.
- Props of a Tab other than its content and `disabled`, and children of other elements: they are carried opaquely or not at all.
- The other components of the kit (button, checkbox, toggle, component-toggle, rich-label, number-picker, async select, animated-visibility) and `tailwind.config.js`: styling and prop forwarding over third-party primitives, with no composition logic.
