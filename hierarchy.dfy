/**
 * The body of `api_agency_hierarchy`: a fixed root "All Agencies" with one
 * node per agency, each carrying its title numbers and exactly one level of
 * child nodes. A 403 from the API gives an "API Access Required" node with
 * the registration text; any other API error gives the sample agencies.
 */
module Hierarchy {
  import opened Wrappers
  import opened EcfrData

  /** A child node: `name` and `titles` only; the child's own children are not visited. */
  datatype ChildNode = ChildNode(name: Option<string>, titles: seq<Option<int>>)

  /** An agency node; `name` is `agency.get('name')`, so it may be `None`. */
  datatype AgencyNode = AgencyNode(name: Option<string>, children: seq<ChildNode>, titles: seq<Option<int>>)

  /** The JSON body of the endpoint: a root node (with a `message` on a 403), or `SAMPLE_DATA`. */
  datatype HierarchyResponse =
    | Root(name: string, children: seq<AgencyNode>, message: Option<string>)
    | SampleData(agencies: seq<SampleAgency>)

  const ROOT_NAME: string := "All Agencies"
  const ACCESS_REQUIRED_NAME: string := "API Access Required"

  /** `[ref.get('title') for ref in refs]`: one entry per reference, in order. */
  function TitleNumbers(refs: seq<CfrReference>): (titles: seq<Option<int>>)
    ensures |titles| == |refs|
    ensures forall i :: 0 <= i < |refs| ==> titles[i] == refs[i].title
  {
    seq(|refs|, i requires 0 <= i < |refs| => refs[i].title)
  }

  function ChildNodeOf(child: Agency): ChildNode {
    ChildNode(child.name, TitleNumbers(RefsOf(child)))
  }

  function ChildNodes(children: seq<Agency>): seq<ChildNode> {
    seq(|children|, j requires 0 <= j < |children| => ChildNodeOf(children[j]))
  }

  /**
   * The node the loop builds for one agency: its name, one title per CFR
   * reference, and one child node per child agency, in order, each child
   * node carrying that child's name and titles.
   */
  function AgencyNodeOf(agency: Agency): (node: AgencyNode)
    ensures node.name == agency.name
    ensures |node.titles| == |RefsOf(agency)|
    ensures forall i :: 0 <= i < |node.titles| ==> node.titles[i] == RefsOf(agency)[i].title
    ensures |node.children| == |ChildrenOf(agency)|
    ensures forall j :: 0 <= j < |node.children| ==>
              node.children[j].name == ChildrenOf(agency)[j].name
              && node.children[j].titles == TitleNumbers(RefsOf(ChildrenOf(agency)[j]))
  {
    AgencyNode(agency.name, ChildNodes(ChildrenOf(agency)), TitleNumbers(RefsOf(agency)))
  }

  function AgencyNodes(agencies: seq<Agency>): seq<AgencyNode> {
    seq(|agencies|, i requires 0 <= i < |agencies| => AgencyNodeOf(agencies[i]))
  }

  /**
   * The agency a node describes, with present (possibly empty) lists and
   * children that have no children of their own.
   */
  function AgencyOfNode(node: AgencyNode): Agency {
    Agency(node.name, Some(RefsOfTitles(node.titles)), Some(ChildAgencies(node.children)))
  }

  function RefsOfTitles(titles: seq<Option<int>>): seq<CfrReference> {
    seq(|titles|, i requires 0 <= i < |titles| => CfrReference(titles[i]))
  }

  function ChildAgencies(nodes: seq<ChildNode>): seq<Agency> {
    seq(|nodes|, j requires 0 <= j < |nodes| => Agency(nodes[j].name, Some(RefsOfTitles(nodes[j].titles)), None))
  }

  /**
   * One agency node: created with no children, then one child node appended
   * per entry of the agency's `children`, in order.
   */
  method BuildAgencyNode(agency: Agency) returns (node: AgencyNode)
    ensures node == AgencyNodeOf(agency)
  {
    node := AgencyNode(agency.name, [], TitleNumbers(RefsOf(agency)));
    var children := ChildrenOf(agency);
    var j := 0;
    while j < |children|
      invariant 0 <= j <= |children|
      invariant node == AgencyNode(agency.name, ChildNodes(children[..j]), TitleNumbers(RefsOf(agency)))
    {
      var child := children[j];
      var childNode := ChildNode(child.name, TitleNumbers(RefsOf(child)));
      node := node.(children := node.children + [childNode]);
      j := j + 1;
    }
    assert children[..j] == children;
  }

  /** `api_agency_hierarchy` with the outcome of the agencies request as input. */
  method AgencyHierarchy(resp: Upstream<AgenciesPayload>) returns (r: HierarchyResponse)
    ensures resp.Forbidden? ==> r == Root(ACCESS_REQUIRED_NAME, [], Some(ACCESS_REQUIRED_MESSAGE))
    ensures resp.Failed? ==> r == SampleData(SAMPLE_AGENCIES)
    ensures resp.Data? ==> r == Root(ROOT_NAME, AgencyNodes(AgenciesOf(resp.body)), None)
  {
    match resp
    case Forbidden(_) =>
      return Root(ACCESS_REQUIRED_NAME, [], Some(ACCESS_REQUIRED_MESSAGE));
    case Failed(_) =>
      return SampleData(SAMPLE_AGENCIES);
    case Data(body) =>
      var agencies := AgenciesOf(body);
      var nodes: seq<AgencyNode> := [];
      var i := 0;
      while i < |agencies|
        invariant 0 <= i <= |agencies|
        invariant nodes == AgencyNodes(agencies[..i])
      {
        var node := BuildAgencyNode(agencies[i]);
        nodes := nodes + [node];
        i := i + 1;
      }
      assert agencies[..i] == agencies;
      return Root(ROOT_NAME, nodes, None);
  }

  /**
   * Shape of the tree: one node per agency, in order, each with one title
   * per CFR reference and one child node per child agency, and each child
   * node with one title per reference of that child.
   */
  lemma HierarchyShape(agencies: seq<Agency>)
    ensures |AgencyNodes(agencies)| == |agencies|
    ensures forall i :: 0 <= i < |agencies| ==>
              && AgencyNodes(agencies)[i].name == agencies[i].name
              && |AgencyNodes(agencies)[i].titles| == |RefsOf(agencies[i])|
              && |AgencyNodes(agencies)[i].children| == |ChildrenOf(agencies[i])|
    ensures forall i, j :: 0 <= i < |agencies| && 0 <= j < |ChildrenOf(agencies[i])| ==>
              && AgencyNodes(agencies)[i].children[j].name == ChildrenOf(agencies[i])[j].name
              && |AgencyNodes(agencies)[i].children[j].titles| == |RefsOf(ChildrenOf(agencies[i])[j])|
  {
  }

  /** Every node is the node of the agency it describes: nothing but the tree's own data is kept. */
  lemma NodeRoundTrip(node: AgencyNode)
    ensures AgencyNodeOf(AgencyOfNode(node)) == node
  {
    var a := AgencyOfNode(node);
    assert TitleNumbers(RefsOf(a)) == node.titles;
    forall j | 0 <= j < |node.children| ensures ChildNodes(ChildrenOf(a))[j] == node.children[j] {
      assert TitleNumbers(RefsOf(ChildrenOf(a)[j])) == node.children[j].titles;
    }
  }

  /**
   * What a node loses: for an agency whose lists are present and whose
   * children have present references and no children of their own, the
   * node determines the agency.
   */
  lemma AgencyRoundTrip(agency: Agency)
    requires agency.cfrReferences.Some? && agency.children.Some?
    requires forall j :: 0 <= j < |ChildrenOf(agency)| ==>
               ChildrenOf(agency)[j].cfrReferences.Some? && ChildrenOf(agency)[j].children.None?
    ensures AgencyOfNode(AgencyNodeOf(agency)) == agency
  {
    var node := AgencyNodeOf(agency);
    assert RefsOfTitles(node.titles) == RefsOf(agency);
    var kids := ChildrenOf(agency);
    forall j | 0 <= j < |kids| ensures ChildAgencies(node.children)[j] == kids[j] {
      assert RefsOfTitles(node.children[j].titles) == RefsOf(kids[j]);
    }
    assert ChildAgencies(node.children) == kids;
  }

  /** Example: "Dept X" with title 7 and child "Sub Y" with title 9. */
  lemma DeptXExample()
    ensures AgencyNodeOf(Agency(Some("Dept X"), Some([CfrReference(Some(7))]),
                                Some([Agency(Some("Sub Y"), Some([CfrReference(Some(9))]), None)])))
         == AgencyNode(Some("Dept X"), [ChildNode(Some("Sub Y"), [Some(9)])], [Some(7)])
  {
    var sub := Agency(Some("Sub Y"), Some([CfrReference(Some(9))]), None);
    assert TitleNumbers(RefsOf(sub)) == [Some(9)];
    assert TitleNumbers([CfrReference(Some(7))]) == [Some(7)];
    assert ChildNodes([sub]) == [ChildNode(Some("Sub Y"), [Some(9)])];
  }
}
