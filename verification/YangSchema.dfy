/** The part of a compiled YANG schema that ConfigDB translation looks at. */
module YangSchema {
  import opened Texts

  /**
   Base types by how a value travels: unsigned and signed integers, of which the 64-bit ones
   are wide, decimals, booleans, and everything that is text both ways.
   */
  datatype Base = Uint(wide: bool) | Int(wide: bool) | Decimal64 | Bool | Plain

  datatype Leaf = Leaf(name: string, base: Base, isList: bool, hasDefault: bool)

  datatype InnerList = InnerList(name: string, keys: seq<string>, leaves: seq<Leaf>)

  datatype YList = YList(name: string, keys: seq<string>, leaves: seq<Leaf>, inner: seq<InnerList>)

  datatype Container = Container(name: string, lists: seq<YList>, containers: seq<Container>, leaves: seq<Leaf>)

  datatype Table = Table(mod: string, top: string, container: Container)

  /** Lists whose entries hold an inner list that ConfigDB stores as plain fields. */
  const TYPE_1_LISTS := [
    "DSCP_TO_TC_MAP_LIST", "DOT1P_TO_TC_MAP_LIST", "TC_TO_PRIORITY_GROUP_MAP_LIST", "TC_TO_QUEUE_MAP_LIST",
    "MAP_PFC_PRIORITY_TO_QUEUE_LIST", "PFC_PRIORITY_TO_PRIORITY_GROUP_MAP_LIST", "DSCP_TO_FC_MAP_LIST",
    "EXP_TO_FC_MAP_LIST", "CABLE_LENGTH_LIST", "MPLS_TC_TO_TC_MAP_LIST", "TC_TO_DSCP_MAP_LIST"]

  predicate IsType1(l: YList) {
    l.name in TYPE_1_LISTS
  }

  /** The inner list of a Type 1 list, if it has one. */
  function InnerOf(l: YList): Option<InnerList> {
    if IsType1(l) && l.inner != [] then Some(l.inner[0]) else None
  }

  function FindList(lists: seq<YList>, name: string): (r: Option<YList>)
    ensures r.Some? ==> r.value in lists && r.value.name == name
  {
    if lists == [] then None else if lists[0].name == name then Some(lists[0]) else FindList(lists[1..], name)
  }

  function FindContainer(containers: seq<Container>, name: string): (r: Option<Container>)
    ensures r.Some? ==> r.value in containers && r.value.name == name
  {
    if containers == [] then None
    else if containers[0].name == name then Some(containers[0])
    else FindContainer(containers[1..], name)
  }

  predicate HasLeaf(leaves: seq<Leaf>, name: string) {
    exists f :: f in leaves && f.name == name && !f.isList
  }

  predicate HasLeafList(leaves: seq<Leaf>, name: string) {
    exists f :: f in leaves && f.name == name && f.isList
  }

  predicate DistinctListNames(lists: seq<YList>) {
    forall i, j :: 0 <= i < j < |lists| ==> lists[i].name != lists[j].name
  }

  lemma {:induction false} FindListExact(lists: seq<YList>, l: YList)
    requires DistinctListNames(lists) && l in lists
    ensures FindList(lists, l.name) == Some(l)
  {
    if lists[0] != l {
      var i :| 0 < i < |lists| && lists[i] == l;
      assert lists[1..][i-1] == l;
      FindListExact(lists[1..], l);
    }
  }

  /** A YANG identifier, possibly with a module prefix: none of the characters xpaths and keys use. */
  predicate IsName(s: string) {
    s != "" && forall c :: c in s ==> c !in "/[]='\"|" && !IsSpace(c)
  }

  predicate ListWellFormed(l: YList) {
    && IsName(l.name)
    && l.keys != [] && (forall k :: k in l.keys ==> IsName(k))
    && (forall i, j :: 0 <= i < j < |l.keys| ==> l.keys[i] != l.keys[j])
    && (forall f :: f in l.leaves ==> IsName(f.name))
    && (forall n :: n in l.inner ==> IsName(n.name) && n.keys != [] && forall k :: k in n.keys ==> IsName(k))
  }

  predicate WellFormed(c: Container) {
    && IsName(c.name)
    && DistinctListNames(c.lists) && (forall l :: l in c.lists ==> ListWellFormed(l))
    && (forall f :: f in c.leaves ==> IsName(f.name))
    && (forall child :: child in c.containers ==> WellFormed(child))
  }
}
