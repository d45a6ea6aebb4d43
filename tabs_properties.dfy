/** What the composition of `Tabs` guarantees: positional slot ids on triggers and panels,
    pairing when the counts agree, the last-TabList rule for the trigger count, which children
    are kept and in what order, and orientation reaching every trigger and panel. */
module TabsProperties {
  import opened SlotIds
  import opened Tabs

  /** The ids of slots 1..n of the group `baseId`, in slot order. */
  function Slots(baseId: string, n: nat): (r: seq<string>)
    ensures |r| == n
  {
    seq(n, i requires 0 <= i < n => SlotId(baseId, i + 1))
  }

  /** The ids of a sequence of triggers, in order. */
  function Ids(tabs: seq<BoundTab>): (r: seq<string>)
    ensures |r| == |tabs|
  {
    seq(|tabs|, i requires 0 <= i < |tabs| => tabs[i].id)
  }

  /** The ids of the panels among the output children, in output order. */
  function PanelIds(out: seq<OutNode>): seq<string> {
    if out == [] then []
    else
      var last := out[|out| - 1];
      PanelIds(out[..|out| - 1]) + (if last.OutTabPanel? then [last.id] else [])
  }

  /** The triggers of the last TabList among the output children, none if there is none. */
  function LastTriggers(out: seq<OutNode>): seq<BoundTab> {
    if out == [] then []
    else if out[|out| - 1].OutTabList? then out[|out| - 1].tabs
    else LastTriggers(out[..|out| - 1])
  }

  /** The keys of the output children, in output order. */
  function Keys(out: seq<OutNode>): (r: seq<nat>)
    ensures |r| == |out|
  {
    seq(|out|, j requires 0 <= j < |out| => out[j].key)
  }

  /** The slot ids of one group are pairwise distinct. */
  lemma SlotsDistinct(baseId: string, n: nat)
    ensures forall i, j :: 0 <= i < j < n ==> Slots(baseId, n)[i] != Slots(baseId, n)[j]
  {
    forall i, j | 0 <= i < j < n
      ensures Slots(baseId, n)[i] != Slots(baseId, n)[j]
    {
      SlotIdInjective(baseId, i + 1, j + 1);
    }
  }

  /** Inside one TabList the trigger at position `i` gets slot `i + 1` (so the ids are pairwise
      distinct), keeps its element, has key `i` and inherits the group's orientation. */
  lemma TriggerBinding(items: seq<TabElem>, baseId: string, vertical: bool)
    ensures Ids(BindTriggers(items, baseId, vertical)) == Slots(baseId, |items|)
    ensures forall i, j :: 0 <= i < j < |items| ==>
      BindTriggers(items, baseId, vertical)[i].id != BindTriggers(items, baseId, vertical)[j].id
    ensures forall i :: 0 <= i < |items| ==>
      var t := BindTriggers(items, baseId, vertical)[i];
      t.tab == items[i] && t.key == i && t.isParentVertical == vertical
  {
    var r := BindTriggers(items, baseId, vertical);
    forall i, j | 0 <= i < j < |items|
      ensures r[i].id != r[j].id
    {
      SlotIdInjective(baseId, i + 1, j + 1);
    }
    assert Ids(r) == Slots(baseId, |items|);
  }

  /** The k-th TabPanel in declaration order (counting from 1) gets slot k, and exactly as many
      panels come out as went in. */
  lemma {:induction false} PanelIdsPositional(nodes: seq<Node>, vertical: bool, baseId: string)
    ensures PanelIds(Bound(nodes, vertical, baseId)) == Slots(baseId, PanelCount(nodes))
  {
    if nodes != [] {
      var last := |nodes| - 1;
      var before := Bound(nodes[..last], vertical, baseId);
      var e := Emit(nodes[last], last, PanelCount(nodes[..last]), vertical, baseId);
      PanelIdsPositional(nodes[..last], vertical, baseId);
      assert Bound(nodes, vertical, baseId) == before + e;
      if e == [] {
        assert before + e == before;
      } else {
        assert (before + e)[..|before|] == before;
        if nodes[last].TabPanelNode? {
          SlotsSnoc(baseId, PanelCount(nodes[..last]));
        }
      }
    }
  }

  /** The slots of n + 1 are those of n followed by slot n + 1. */
  lemma SlotsSnoc(baseId: string, n: nat)
    ensures Slots(baseId, n + 1) == Slots(baseId, n) + [SlotId(baseId, n + 1)]
  {
    assert forall i :: 0 <= i < n ==> Slots(baseId, n + 1)[i] == Slots(baseId, n)[i];
  }

  /** Whatever TabLists came before, the trigger count is the item count of the last TabList
      (an empty one resets it to 0), and 0 when there is no TabList. */
  lemma {:induction false} TriggerCountIsLastTabList(nodes: seq<Node>)
    ensures (forall i :: 0 <= i < |nodes| ==> !nodes[i].TabListNode?) ==> TriggerCount(nodes) == 0
    ensures forall i :: 0 <= i < |nodes| && nodes[i].TabListNode? ==>
      ((forall j :: i < j < |nodes| ==> !nodes[j].TabListNode?) ==>
        TriggerCount(nodes) == |TabItems(nodes[i].children)|)
  {
    if nodes != [] {
      var last := |nodes| - 1;
      TriggerCountIsLastTabList(nodes[..last]);
      assert forall i :: 0 <= i < last ==> nodes[..last][i] == nodes[i];
    }
  }

  /** When the trigger count is positive, the last TabList in the output holds exactly that many
      triggers, with slots 1..count. */
  lemma {:induction false} LastTabListTriggers(nodes: seq<Node>, vertical: bool, baseId: string)
    ensures TriggerCount(nodes) > 0 ==>
      Ids(LastTriggers(Bound(nodes, vertical, baseId))) == Slots(baseId, TriggerCount(nodes))
  {
    if nodes != [] {
      var last := |nodes| - 1;
      var before := Bound(nodes[..last], vertical, baseId);
      var e := Emit(nodes[last], last, PanelCount(nodes[..last]), vertical, baseId);
      LastTabListTriggers(nodes[..last], vertical, baseId);
      if e == [] {
        assert before + e == before;
      } else {
        assert (before + e)[..|before|] == before;
        if nodes[last].TabListNode? {
          TriggerBinding(TabItems(nodes[last].children), baseId, vertical);
        }
      }
    }
  }

  /** When the counts agree (the only case in which `Tabs` renders the container), panel `i` and
      trigger `i` of the last TabList carry the same id, and these ids are pairwise distinct. */
  lemma ConsistentPairing(nodes: seq<Node>, vertical: bool, baseId: string)
    requires TriggerCount(nodes) == PanelCount(nodes)
    ensures PanelIds(Bound(nodes, vertical, baseId)) == Slots(baseId, PanelCount(nodes))
    ensures PanelCount(nodes) > 0 ==>
      Ids(LastTriggers(Bound(nodes, vertical, baseId))) == PanelIds(Bound(nodes, vertical, baseId))
    ensures forall i, j :: 0 <= i < j < PanelCount(nodes) ==>
      PanelIds(Bound(nodes, vertical, baseId))[i] != PanelIds(Bound(nodes, vertical, baseId))[j]
  {
    PanelIdsPositional(nodes, vertical, baseId);
    LastTabListTriggers(nodes, vertical, baseId);
    SlotsDistinct(baseId, PanelCount(nodes));
  }

  /** The output children keep their declaration order: keys strictly increase and stay below
      the number of children. */
  lemma {:induction false} KeysIncreasing(nodes: seq<Node>, vertical: bool, baseId: string)
    ensures forall j :: 0 <= j < |Bound(nodes, vertical, baseId)| ==>
      Bound(nodes, vertical, baseId)[j].key < |nodes|
    ensures forall j, k :: 0 <= j < k < |Bound(nodes, vertical, baseId)| ==>
      Bound(nodes, vertical, baseId)[j].key < Bound(nodes, vertical, baseId)[k].key
  {
    if nodes != [] {
      var last := |nodes| - 1;
      var init := nodes[..last];
      var before := Bound(init, vertical, baseId);
      var e := Emit(nodes[last], last, PanelCount(init), vertical, baseId);
      KeysIncreasing(init, vertical, baseId);
      var out := Bound(nodes, vertical, baseId);
      assert out == before + e;
      assert e != [] ==> e[0].key == last;
      forall j | 0 <= j < |out|
        ensures out[j].key < |nodes|
      {
        if j < |before| { assert out[j] == before[j]; }
      }
      forall j, k | 0 <= j < k < |out|
        ensures out[j].key < out[k].key
      {
        assert out[j] == before[j];
      }
    }
  }

  /** Every output child is the clone of the top-level child whose index is its key. */
  lemma {:induction false} KeyedByIndex(nodes: seq<Node>, vertical: bool, baseId: string)
    ensures forall j :: 0 <= j < |Bound(nodes, vertical, baseId)| ==>
      Bound(nodes, vertical, baseId)[j].key < |nodes| &&
      Emit(nodes[Bound(nodes, vertical, baseId)[j].key], Bound(nodes, vertical, baseId)[j].key,
           PanelCount(nodes[..Bound(nodes, vertical, baseId)[j].key]), vertical, baseId)
        == [Bound(nodes, vertical, baseId)[j]]
  {
    if nodes != [] {
      var last := |nodes| - 1;
      var init := nodes[..last];
      var before := Bound(init, vertical, baseId);
      var e := Emit(nodes[last], last, PanelCount(init), vertical, baseId);
      KeyedByIndex(init, vertical, baseId);
      KeysIncreasing(init, vertical, baseId);
      assert Bound(nodes, vertical, baseId) == before + e;
      forall j | 0 <= j < |before|
        ensures nodes[before[j].key] == init[before[j].key]
        ensures nodes[..before[j].key] == init[..before[j].key]
      {
      }
      assert e != [] ==> e == [e[0]] && e[0].key == last;
    }
  }

  /** Exactly the kept children (panels and non-empty TabLists) appear in the output; every other
      child is dropped. */
  lemma {:induction false} KeptExactly(nodes: seq<Node>, vertical: bool, baseId: string)
    ensures forall i :: 0 <= i < |nodes| ==> (Keeps(nodes[i]) <==> i in Keys(Bound(nodes, vertical, baseId)))
  {
    if nodes != [] {
      var last := |nodes| - 1;
      var init := nodes[..last];
      var before := Bound(init, vertical, baseId);
      var e := Emit(nodes[last], last, PanelCount(init), vertical, baseId);
      KeptExactly(init, vertical, baseId);
      KeysIncreasing(init, vertical, baseId);
      var keys := Keys(Bound(nodes, vertical, baseId));
      assert Bound(nodes, vertical, baseId) == before + e;
      assert keys == Keys(before) + Keys(e);
      assert last !in Keys(before);
      assert e != [] ==> Keys(e) == [last];
      forall i | 0 <= i < |nodes|
        ensures Keeps(nodes[i]) <==> i in keys
      {
        if i < last {
          assert nodes[i] == init[i];
          assert i !in Keys(e);
        }
      }
    }
  }

  /** Orientation is handed down unchanged: every trigger has `isParentVertical == vertical` and
      every panel has the vertical border classes exactly when the group is vertical. */
  lemma {:induction false} OrientationPropagated(nodes: seq<Node>, vertical: bool, baseId: string)
    ensures forall o :: o in Bound(nodes, vertical, baseId) ==>
      (o.OutTabPanel? ==> o.verticalBorder == vertical) &&
      (o.OutTabList? ==> forall t :: t in o.tabs ==> t.isParentVertical == vertical)
  {
    if nodes != [] {
      var last := |nodes| - 1;
      var e := Emit(nodes[last], last, PanelCount(nodes[..last]), vertical, baseId);
      OrientationPropagated(nodes[..last], vertical, baseId);
      assert Bound(nodes, vertical, baseId) == Bound(nodes[..last], vertical, baseId) + e;
      if nodes[last].TabListNode? {
        TriggerBinding(TabItems(nodes[last].children), baseId, vertical);
      }
    }
  }

  /** Children that only differ in a TabList whose items are the same give the same output and
      the same counts. */
  lemma {:induction false} SameItemsSameOutcome(nodes: seq<Node>, k: nat, c: TabListChildren, vertical: bool, baseId: string)
    requires k < |nodes| && nodes[k].TabListNode?
    requires TabItems(c) == TabItems(nodes[k].children)
    ensures Bound(nodes[k := TabListNode(c)], vertical, baseId) == Bound(nodes, vertical, baseId)
    ensures TriggerCount(nodes[k := TabListNode(c)]) == TriggerCount(nodes)
    ensures PanelCount(nodes[k := TabListNode(c)]) == PanelCount(nodes)
  {
    var last := |nodes| - 1;
    var changed := nodes[k := TabListNode(c)];
    if k == last {
      assert changed[..last] == nodes[..last];
    } else {
      assert changed[..last] == nodes[..last][k := TabListNode(c)];
      SameItemsSameOutcome(nodes[..last], k, c, vertical, baseId);
    }
  }

  /** A TabList whose `children` is a single value behaves as a TabList over the one-element
      array of that value, or over the empty array when the value is falsy. */
  lemma LoneTabListChild(nodes: seq<Node>, k: nat, vertical: bool, baseId: string)
    requires k < |nodes| && nodes[k].TabListNode? && nodes[k].children.SingleChild?
    ensures var item := nodes[k].children.item;
      var asArray := nodes[k := TabListNode(ChildArray(if item.Falsy? then [] else [item.tab]))];
      Bound(asArray, vertical, baseId) == Bound(nodes, vertical, baseId) &&
      TriggerCount(asArray) == TriggerCount(nodes) && PanelCount(asArray) == PanelCount(nodes)
  {
    var item := nodes[k].children.item;
    SameItemsSameOutcome(nodes, k, ChildArray(if item.Falsy? then [] else [item.tab]), vertical, baseId);
  }

  /** A non-empty TabList followed by an empty one, with no panel: the empty one resets the
      trigger count to 0, so the counts agree and the container is rendered although its two
      triggers have no panel. */
  lemma UnpairedTriggersPassCheck(a: TabElem, b: TabElem, vertical: bool, baseId: string)
    ensures var nodes := [TabListNode(ChildArray([a, b])), TabListNode(ChildArray([]))];
      TriggerCount(nodes) == PanelCount(nodes) == 0 &&
      |LastTriggers(Bound(nodes, vertical, baseId))| == 2 &&
      PanelIds(Bound(nodes, vertical, baseId)) == []
  {
    var nodes := [TabListNode(ChildArray([a, b])), TabListNode(ChildArray([]))];
    var first := nodes[..1];
    assert first == [TabListNode(ChildArray([a, b]))] && first[..0] == [];
    assert TriggerCount(first) == 2 && PanelCount(first) == 0;
    var out1 := Bound(first, vertical, baseId);
    assert out1 == Bound([], vertical, baseId) + Emit(first[0], 0, PanelCount([]), vertical, baseId);
    assert TabItems(first[0].children) == [a, b];
    assert out1 == [OutTabList(0, BindTriggers([a, b], baseId, vertical))];
    assert Bound(nodes, vertical, baseId) == out1;
    assert out1[..0] == [];
  }

  /** The triggers of two non-empty TabLists both start at slot 1, so their ids collide. */
  lemma TabListsShareTriggerIds(a: TabElem, b: TabElem, vertical: bool, baseId: string)
    ensures var out := Bound([TabListNode(ChildArray([a])), TabListNode(ChildArray([b]))], vertical, baseId);
      |out| == 2 && out[0].OutTabList? && out[1].OutTabList? &&
      |out[0].tabs| == 1 && |out[1].tabs| == 1 &&
      out[0].tabs[0].id == out[1].tabs[0].id == SlotId(baseId, 1)
  {
    var nodes := [TabListNode(ChildArray([a])), TabListNode(ChildArray([b]))];
    var first := nodes[..1];
    assert first == [TabListNode(ChildArray([a]))] && first[..0] == [];
    var out1 := Bound(first, vertical, baseId);
    assert out1 == Bound([], vertical, baseId) + Emit(first[0], 0, PanelCount([]), vertical, baseId);
    assert TabItems(first[0].children) == [a];
    assert out1 == [OutTabList(0, BindTriggers([a], baseId, vertical))];
    assert Bound(nodes, vertical, baseId) == out1 + [OutTabList(1, BindTriggers([b], baseId, vertical))];
  }
}
