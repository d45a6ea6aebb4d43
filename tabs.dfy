/** The tab-group composition of `Tabs`: the caller's children are classified by role, the
    triggers inside each TabList and the top-level panels receive slot ids, and the result is
    either the tab container or, when the trigger and panel counts disagree, an error notice. */
module Tabs {
  import opened SlotIds

  datatype Option<T> = None | Some(value: T)

  /** A Tab element placed inside a TabList; label and other props are opaque here. */
  datatype TabElem = TabElem(content: string, disabled: bool)

  /** A value that may stand as a TabList's only child: `undefined`, `null`, `false` or `''`
      (all falsy) or an element. */
  datatype Item = Falsy | Element(tab: TabElem)

  /** A TabList's `props.children`: one (possibly falsy) child, or an array of elements. */
  datatype TabListChildren = SingleChild(item: Item) | ChildArray(tabs: seq<TabElem>)

  /** The props of a TabPanel element that the composition reads or keeps. */
  datatype PanelProps = PanelProps(className: Option<string>, content: string)

  /** A top-level child of `Tabs`, by the role its `type.displayName` names; `OtherNode` is any
      element whose display name is neither 'TabList' nor 'TabPanel'. */
  datatype Node =
    | TabListNode(children: TabListChildren)
    | TabPanelNode(panel: PanelProps)
    | OtherNode

  /** The `children` prop of `Tabs`: a single node or an array of nodes. */
  datatype Children = OneChild(node: Node) | ChildList(nodes: seq<Node>)

  /** A trigger after cloning: its id, its React key and the orientation it inherits. */
  datatype BoundTab = BoundTab(tab: TabElem, id: string, key: nat, isParentVertical: bool)

  /** A kept child after cloning, keyed by its index among the top-level children. A panel's
      `verticalBorder` says whether the vertical-only border classes were appended. */
  datatype OutNode =
    | OutTabList(key: nat, tabs: seq<BoundTab>)
    | OutTabPanel(key: nat, id: string, panel: PanelProps, verticalBorder: bool)

  datatype Orientation = Horizontal | Vertical

  /** The container's layout classes: a column of triggers over panels, or a grid whose first
      column is the trigger rail. */
  datatype Layout = Stacked | TwoColumnGrid

  /** What `Tabs` renders: the tab container around the kept children, or the error notice that
      carries the trigger count and the panel count. */
  datatype Rendered =
    | Container(orientation: Orientation, layout: Layout, children: seq<OutNode>)
    | ErrorNotice(tabCount: nat, panelCount: nat)

  /** The children as a list: a lone child becomes a one-element list. */
  function Prepared(children: Children): seq<Node> {
    match children
    case OneChild(n) => [n]
    case ChildList(ns) => ns
  }

  /** A TabList's items: an array as it is; a single child as a one-element list with a falsy
      value filtered out. */
  function TabItems(c: TabListChildren): seq<TabElem> {
    match c
    case ChildArray(tabs) => tabs
    case SingleChild(Falsy) => []
    case SingleChild(Element(t)) => [t]
  }

  /** The triggers of one TabList after cloning: the one at 0-based position `i` gets slot
      `i + 1`, key `i` and the group's orientation. */
  function BindTriggers(items: seq<TabElem>, baseId: string, vertical: bool): (r: seq<BoundTab>)
    ensures |r| == |items|
  {
    seq(|items|, i requires 0 <= i < |items| =>
      BoundTab(items[i], SlotId(baseId, i + 1), i, vertical))
  }

  /** The number of TabPanels among `nodes`. */
  function PanelCount(nodes: seq<Node>): nat {
    if nodes == [] then 0
    else PanelCount(nodes[..|nodes| - 1]) + (if nodes[|nodes| - 1].TabPanelNode? then 1 else 0)
  }

  /** The trigger count after `nodes`: every TabList overwrites it with its own item count, so
      it is that of the last TabList, and 0 when there is none. */
  function TriggerCount(nodes: seq<Node>): nat {
    if nodes == [] then 0
    else if nodes[|nodes| - 1].TabListNode? then |TabItems(nodes[|nodes| - 1].children)|
    else TriggerCount(nodes[..|nodes| - 1])
  }

  /** Whether a child survives the reduction: a panel, or a TabList with at least one item. */
  predicate Keeps(n: Node) {
    n.TabPanelNode? || (n.TabListNode? && |TabItems(n.children)| > 0)
  }

  /** What the child at `index` contributes, `panelsBefore` panels having preceded it. */
  function Emit(child: Node, index: nat, panelsBefore: nat, vertical: bool, baseId: string): (r: seq<OutNode>)
    ensures |r| == (if Keeps(child) then 1 else 0)
    ensures forall o :: o in r ==> o.key == index
  {
    match child
    case TabListNode(c) =>
      var items := TabItems(c);
      if |items| < 1 then [] else [OutTabList(index, BindTriggers(items, baseId, vertical))]
    case TabPanelNode(p) =>
      [OutTabPanel(index, SlotId(baseId, panelsBefore + 1), p, vertical)]
    case OtherNode => []
  }

  /** The reduction of `nodes`, in declaration order, to the cloned children. */
  function Bound(nodes: seq<Node>, vertical: bool, baseId: string): seq<OutNode> {
    if nodes == [] then []
    else
      var last := |nodes| - 1;
      Bound(nodes[..last], vertical, baseId) + Emit(nodes[last], last, PanelCount(nodes[..last]), vertical, baseId)
  }

  /** `Tabs`: reduce the children with the two counters, then either render the container or,
      when the counters disagree, the error notice alone. `baseId` is the group namespace. */
  method ComposeTabs(children: Children, vertical: bool, baseId: string) returns (r: Rendered)
    ensures r.ErrorNotice? <==> TriggerCount(Prepared(children)) != PanelCount(Prepared(children))
    ensures r.ErrorNotice? ==>
      r.tabCount == TriggerCount(Prepared(children)) && r.panelCount == PanelCount(Prepared(children))
    ensures r.Container? ==> r.children == Bound(Prepared(children), vertical, baseId)
    ensures r.Container? ==> (r.orientation == Vertical <==> vertical)
    ensures r.Container? ==> (r.layout == TwoColumnGrid <==> vertical)
  {
    var tabPanelCounter := 1;
    var tabCounter := 1;
    var preparedChildren := if children.ChildList? then children.nodes else [children.node];
    var childrenWithIds: seq<OutNode> := [];
    for index := 0 to |preparedChildren|
      invariant tabPanelCounter == PanelCount(preparedChildren[..index]) + 1
      invariant tabCounter == TriggerCount(preparedChildren[..index]) + 1
      invariant childrenWithIds == Bound(preparedChildren[..index], vertical, baseId)
    {
      assert preparedChildren[..index + 1][..index] == preparedChildren[..index];
      match preparedChildren[index] {
        case TabListNode(c) =>
          var childItems := TabItems(c);
          tabCounter := |childItems| + 1;
          if |childItems| >= 1 {
            childrenWithIds := childrenWithIds + [OutTabList(index, BindTriggers(childItems, baseId, vertical))];
          }
        case TabPanelNode(p) =>
          childrenWithIds := childrenWithIds + [OutTabPanel(index, SlotId(baseId, tabPanelCounter), p, vertical)];
          tabPanelCounter := tabPanelCounter + 1;
        case OtherNode =>
      }
    }
    assert preparedChildren[..|preparedChildren|] == preparedChildren;
    if tabCounter != tabPanelCounter {
      return ErrorNotice(tabCounter - 1, tabPanelCounter - 1);
    }
    r := Container(if vertical then Vertical else Horizontal,
                   if vertical then TwoColumnGrid else Stacked,
                   childrenWithIds);
  }
}
