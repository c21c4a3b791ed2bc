// The XML tree builder and serialiser (projects/drivers/util/xml.c): nodes
// with named attributes and child nodes, built in place, and printed into a
// growing document buffer by a recursive walk.

module Xml {
  import opened Common

  // ---------------------------------------------------------------------
  // The tree as a value, and the text it prints as
  // ---------------------------------------------------------------------

  /** An attribute as printed: name="value". */
  datatype Attr = Attr(name: string, value: string)

  /** A node as printed: its name, its attributes and its children, in order. */
  datatype Element = Element(name: string, attrs: seq<Attr>, children: seq<Element>)

  /** One attribute as xml_create_document prints it, with the space after it. */
  function AttrText(a: Attr): string
  {
    a.name + "=\"" + a.value + "\" "
  }

  /** The attributes printed one after the other, in order. */
  function AttrsText(attrs: seq<Attr>): string
  {
    if attrs == [] then "" else AttrsText(attrs[..|attrs| - 1]) + AttrText(attrs[|attrs| - 1])
  }

  /** The opening part of a node: "<name " and its attributes. */
  function OpenText(e: Element): string
  {
    "<" + e.name + " " + AttrsText(e.attrs)
  }

  /** The closing tag of a node with children. */
  function CloseText(name: string): string
  {
    "</" + name + ">\n"
  }

  /**
   * The text of a node: an empty-element tag when it has no children,
   * otherwise the opening tag, the children in order and the closing tag.
   * Names and values are copied verbatim, with no escaping.
   */
  function Render(e: Element): string
    decreases e, 1
  {
    OpenText(e) + if e.children == [] then "/>\n" else ">\n" + RenderAll(e.children) + CloseText(e.name)
  }

  /** The texts of the nodes, one after the other. */
  function RenderAll(cs: seq<Element>): string
    decreases cs, 0
  {
    if cs == [] then "" else RenderAll(cs[..|cs| - 1]) + Render(cs[|cs| - 1])
  }

  // ---------------------------------------------------------------------
  // Printing into the document buffer
  // ---------------------------------------------------------------------

  /** The step by which the document buffer grows (buff_increments). */
  const BUFF_INCREMENTS: int := 1024

  /**
   * A document: the text printed so far (buff up to index), the size of the
   * buffer, and how many more reallocs the allocator will grant.
   */
  datatype Doc = Doc(text: string, size: int, reallocs: nat)

  /** A new document: an empty 2048-byte buffer. */
  function NewDoc(reallocs: nat): (d: Doc)
    ensures d.text == [] && d.size == 2 * BUFF_INCREMENTS && d.reallocs == reallocs
  {
    Doc([], 2 * BUFF_INCREMENTS, reallocs)
  }

  /** The document after sprintf appends s at index. */
  function Write(d: Doc, s: string): Doc
  {
    d.(text := d.text + s)
  }

  /**
   * The check at the start of every node: when index is past size minus
   * one increment, the buffer is reallocated one increment larger, and a
   * failed realloc is None.
   */
  function Grow(d: Doc): Option<Doc>
  {
    if |d.text| > d.size - BUFF_INCREMENTS then
      if d.reallocs == 0 then None else Some(d.(size := d.size + BUFF_INCREMENTS, reallocs := d.reallocs - 1))
    else Some(d)
  }

  /** A document and the value xml_create_document returns with it. */
  datatype Emitted = Emitted(doc: Doc, ret: int)

  /**
   * xml_create_document on an existing document: grow if needed, print the
   * opening part, then either "/>\n" or ">\n", the children and the
   * closing tag. A child's return value is not looked at, so a child whose
   * realloc fails prints nothing and the parent carries on.
   */
  function Emit(d: Doc, e: Element): Emitted
    decreases e, 1
  {
    match Grow(d)
    case None => Emitted(d, -ENOMEM)
    case Some(g) =>
      var o := Write(g, OpenText(e));
      if e.children == [] then Emitted(Write(o, "/>\n"), 0)
      else Emitted(Write(EmitAll(Write(o, ">\n"), e.children), CloseText(e.name)), 0)
  }

  /** The children printed one after the other, their return values dropped. */
  function EmitAll(d: Doc, cs: seq<Element>): Doc
    decreases cs, 0
  {
    if cs == [] then d else Emit(EmitAll(d, cs[..|cs| - 1]), cs[|cs| - 1]).doc
  }

  /** The number of nodes in a tree. */
  function Nodes(e: Element): nat
    decreases e, 1
  {
    1 + NodesAll(e.children)
  }

  /** The number of nodes in a run of trees. */
  function NodesAll(cs: seq<Element>): nat
    decreases cs, 0
  {
    if cs == [] then 0 else NodesAll(cs[..|cs| - 1]) + Nodes(cs[|cs| - 1])
  }

  /**
   * Printing only appends: the earlier text stays, and the buffer grows by
   * whole increments, one per realloc granted.
   */
  lemma {:induction false} EmitExtends(d: Doc, e: Element)
    ensures var r := Emit(d, e).doc;
            && d.text <= r.text
            && r.reallocs <= d.reallocs
            && r.size == d.size + BUFF_INCREMENTS * (d.reallocs - r.reallocs)
    decreases e, 1
  {
    match Grow(d)
    case None =>
    case Some(g) =>
      var o := Write(g, OpenText(e));
      if e.children != [] {
        EmitAllExtends(Write(o, ">\n"), e.children);
      }
  }

  /** Printing a run of children only appends, as for one node. */
  lemma {:induction false} EmitAllExtends(d: Doc, cs: seq<Element>)
    ensures var r := EmitAll(d, cs);
            && d.text <= r.text
            && r.reallocs <= d.reallocs
            && r.size == d.size + BUFF_INCREMENTS * (d.reallocs - r.reallocs)
    decreases cs, 0
  {
    if cs != [] {
      var p := EmitAll(d, cs[..|cs| - 1]);
      EmitAllExtends(d, cs[..|cs| - 1]);
      EmitExtends(p, cs[|cs| - 1]);
    }
  }

  /**
   * With a realloc granted for every node, xml_create_document succeeds and
   * appends exactly the tree's text, using at most one realloc per node.
   */
  lemma {:induction false} EmitRenders(d: Doc, e: Element)
    requires Nodes(e) <= d.reallocs
    ensures var r := Emit(d, e);
            && r.ret == 0
            && r.doc.text == d.text + Render(e)
            && d.reallocs - Nodes(e) <= r.doc.reallocs
    decreases e, 1
  {
    var g := Grow(d).value;
    var o := Write(g, OpenText(e));
    if e.children != [] {
      var c := EmitAll(Write(o, ">\n"), e.children);
      EmitAllRenders(Write(o, ">\n"), e.children);
      assert c.text == d.text + OpenText(e) + ">\n" + RenderAll(e.children);
    }
  }

  /** With a realloc granted for every node, the children's texts are appended in order. */
  lemma {:induction false} EmitAllRenders(d: Doc, cs: seq<Element>)
    requires NodesAll(cs) <= d.reallocs
    ensures var r := EmitAll(d, cs);
            && r.text == d.text + RenderAll(cs)
            && d.reallocs - NodesAll(cs) <= r.reallocs
    decreases cs, 0
  {
    if cs != [] {
      var p := EmitAll(d, cs[..|cs| - 1]);
      EmitAllRenders(d, cs[..|cs| - 1]);
      EmitRenders(p, cs[|cs| - 1]);
    }
  }

  /**
   * xml_create_document as evidently intended: a child that fails stops
   * the print and its error is returned.
   */
  function EmitChecked(d: Doc, e: Element): Emitted
    decreases e, 1
  {
    match Grow(d)
    case None => Emitted(d, -ENOMEM)
    case Some(g) =>
      var o := Write(g, OpenText(e));
      if e.children == [] then Emitted(Write(o, "/>\n"), 0)
      else
        var c := EmitAllChecked(Write(o, ">\n"), e.children);
        if c.ret != 0 then c else Emitted(Write(c.doc, CloseText(e.name)), 0)
  }

  /** The children printed one after the other, up to the first that fails. */
  function EmitAllChecked(d: Doc, cs: seq<Element>): Emitted
    decreases cs, 0
  {
    if cs == [] then Emitted(d, 0)
    else
      var p := EmitAllChecked(d, cs[..|cs| - 1]);
      if p.ret != 0 then p else EmitChecked(p.doc, cs[|cs| - 1])
  }

  /**
   * The corrected print reports success only when it has appended exactly
   * the tree's text, and otherwise fails with -ENOMEM.
   */
  lemma {:induction false} EmitCheckedRenders(d: Doc, e: Element)
    ensures var r := EmitChecked(d, e);
            && (r.ret == 0 || r.ret == -ENOMEM)
            && (r.ret == 0 ==> r.doc.text == d.text + Render(e))
    decreases e, 1
  {
    match Grow(d)
    case None =>
    case Some(g) =>
      var o := Write(g, OpenText(e));
      if e.children != [] {
        EmitAllCheckedRenders(Write(o, ">\n"), e.children);
      }
  }

  /** The corrected print of a run of children: success means all their texts, in order. */
  lemma {:induction false} EmitAllCheckedRenders(d: Doc, cs: seq<Element>)
    ensures var r := EmitAllChecked(d, cs);
            && (r.ret == 0 || r.ret == -ENOMEM)
            && (r.ret == 0 ==> r.doc.text == d.text + RenderAll(cs))
    decreases cs, 0
  {
    if cs != [] {
      var p := EmitAllChecked(d, cs[..|cs| - 1]);
      EmitAllCheckedRenders(d, cs[..|cs| - 1]);
      if p.ret == 0 {
        EmitCheckedRenders(p.doc, cs[|cs| - 1]);
      }
    }
  }

  /** Where the corrected print succeeds, it leaves the document the source leaves. */
  lemma {:induction false} EmitCheckedAgrees(d: Doc, e: Element)
    ensures EmitChecked(d, e).ret == 0 ==> EmitChecked(d, e) == Emit(d, e)
    decreases e, 1
  {
    match Grow(d)
    case None =>
    case Some(g) =>
      var o := Write(g, OpenText(e));
      if e.children != [] {
        EmitAllCheckedAgrees(Write(o, ">\n"), e.children);
      }
  }

  /** Where the corrected print of the children succeeds, it prints what the source prints. */
  lemma {:induction false} EmitAllCheckedAgrees(d: Doc, cs: seq<Element>)
    ensures EmitAllChecked(d, cs).ret == 0 ==> EmitAllChecked(d, cs).doc == EmitAll(d, cs)
    decreases cs, 0
  {
    if cs != [] {
      var p := EmitAllChecked(d, cs[..|cs| - 1]);
      EmitAllCheckedAgrees(d, cs[..|cs| - 1]);
      if p.ret == 0 {
        EmitCheckedAgrees(p.doc, cs[|cs| - 1]);
      }
    }
  }

  /** A name of n letters. */
  function LongName(n: nat): (s: string)
    ensures |s| == n
  {
    seq(n, i => 'a')
  }

  /**
   * A child whose realloc fails is dropped while its parent still returns
   * 0: in a new document with no realloc to spare, a parent whose opening
   * tag passes size minus one increment prints its closing tag but not its
   * child.
   */
  lemma ChildFailureIgnored()
    ensures var e := Element(LongName(1100), [], [Element("c", [], [])]);
            var r := Emit(NewDoc(0), e);
            r.ret == 0 && r.doc.text != Render(e)
  {
    var e := Element(LongName(1100), [], [Element("c", [], [])]);
    var c := Element("c", [], []);
    var o := Write(NewDoc(0), OpenText(e) + ">\n");
    assert |o.text| == 1104;
    assert Emit(o, c) == Emitted(o, -ENOMEM);
    assert [c][..0] == [];
    assert EmitAll(o, [c]) == o;
    assert |Emit(NewDoc(0), e).doc.text| == 1104 + |CloseText(e.name)|;
    assert |Render(c)| == 6;
    assert RenderAll([c]) == Render(c);
    assert |Render(e)| == 1104 + 6 + |CloseText(e.name)|;
  }

  /**
   * The growth check does not bound what a node then prints: a single node
   * with a long name runs past the end of a new 2048-byte buffer.
   */
  lemma NodeCanOverrunBuffer()
    ensures var r := Emit(NewDoc(0), Element(LongName(2100), [], []));
            r.ret == 0 && |r.doc.text| > r.doc.size
  {
    var e := Element(LongName(2100), [], []);
    assert |Emit(NewDoc(0), e).doc.text| == 2 + 2100 + 3;
  }

  /**
   * Values are printed without escaping, so different trees can print the
   * same text: a value holding a quote reads back as a second attribute.
   */
  lemma UnescapedValueIsAmbiguous()
    ensures var e1 := Element("n", [Attr("a", "x\" b=\"y")], []);
            var e2 := Element("n", [Attr("a", "x"), Attr("b", "y")], []);
            e1 != e2 && Render(e1) == Render(e2)
  {
    var a := Attr("a", "x\" b=\"y");
    var a1, a2 := Attr("a", "x"), Attr("b", "y");
    assert [a][..0] == [] && [a1, a2][..1] == [a1] && [a1][..0] == [];
    assert AttrsText([a]) == AttrText(a) == "a=\"x\" b=\"y\" ";
    assert AttrsText([a1, a2]) == AttrText(a1) + AttrText(a2) == "a=\"x\" b=\"y\" ";
  }

  /**
   * Every node of the tree has fewer than 256 attributes and children: the
   * loops over them count with a uint8_t, which would wrap and never reach
   * a larger count.
   */
  predicate Bounded(e: Element)
    decreases e
  {
    && |e.attrs| < 256
    && |e.children| < 256
    && forall i :: 0 <= i < |e.children| ==> Bounded(e.children[i])
  }

  // ---------------------------------------------------------------------
  // The nodes and attributes in memory
  // ---------------------------------------------------------------------

  /** xml_attribute: a name and a value, each None while NULL or unset. */
  class XmlAttribute {
    var name: Option<string>
    var value: Option<string>

    /** A freshly allocated attribute, before its strings are copied in (malloc leaves them uninitialised; here they are NULL). */
    constructor()
      ensures name.None? && value.None?
    {
      name := None;
      value := None;
    }
  }

  /**
   * xml_create_attribute: allocate the attribute, then copies of the name
   * and of the value. mallocs is how many of the three mallocs succeed; the
   * first failure returns -ENOMEM and leaves what was set so far.
   */
  method CreateAttribute(name: string, value: string, mallocs: nat) returns (ret: int, attr: XmlAttribute?)
    ensures mallocs == 0 ==> ret == -ENOMEM && attr == null
    ensures mallocs != 0 ==> attr != null && fresh(attr)
    ensures mallocs == 1 ==> ret == -ENOMEM && attr.name.None? && attr.value.None?
    ensures mallocs == 2 ==> ret == -ENOMEM && attr.name == Some(name) && attr.value.None?
    ensures mallocs >= 3 ==> ret == 0 && attr.name == Some(name) && attr.value == Some(value)
  {
    if mallocs == 0 {
      return -ENOMEM, null;
    }
    attr := new XmlAttribute();
    if mallocs == 1 {
      return -ENOMEM, attr;
    }
    attr.name := Some(name);
    if mallocs == 2 {
      return -ENOMEM, attr;
    }
    attr.value := Some(value);
    ret := 0;
  }

  /** What xml_delete_node leaves of every object of a tree: nodes cleared, attribute strings NULL. */
  predicate Gone(o: object)
    reads o
  {
    && (o is XmlNode ==> (o as XmlNode).Cleared())
    && (o is XmlAttribute ==> (o as XmlAttribute).name.None? && (o as XmlAttribute).value.None?)
  }

  /** The footprints of a run of child nodes, together. */
  ghost function KidReprs(cs: seq<XmlNode>): set<object>
    reads set c | c in cs
  {
    if cs == [] then {} else KidReprs(cs[..|cs| - 1]) + cs[|cs| - 1].Repr
  }

  /** Each child's footprint lies in the union of the run's footprints. */
  lemma {:induction false} KidReprsHas(cs: seq<XmlNode>, j: nat)
    requires j < |cs|
    ensures cs[j].Repr <= KidReprs(cs)
    decreases |cs|
  {
    if j < |cs| - 1 {
      KidReprsHas(cs[..|cs| - 1], j);
    }
  }

  /**
   * When everything in each child's footprint before is Gone now, so is
   * everything in their union before.
   */
  twostate lemma {:induction false} KidReprsGone(cs: seq<XmlNode>)
    requires forall k, o :: 0 <= k < |cs| && o in old(cs[k].Repr) ==> Gone(o)
    ensures forall o :: o in old(KidReprs(cs)) ==> Gone(o)
    decreases |cs|
  {
    if cs != [] {
      KidReprsGone(cs[..|cs| - 1]);
    }
  }

  /** The attributes of a node, as a set of objects. */
  ghost function AttrObjects(attrs: seq<XmlAttribute>): set<object>
  {
    set k | 0 <= k < |attrs| :: attrs[k]
  }

  /** One more attribute adds one more object. */
  lemma AttrObjectsSnoc(attrs: seq<XmlAttribute>, a: XmlAttribute)
    ensures AttrObjects(attrs + [a]) == AttrObjects(attrs) + {a}
  {
    assert forall k :: 0 <= k < |attrs| ==> (attrs + [a])[k] == attrs[k];
    assert (attrs + [a])[|attrs|] == a;
  }

  /** xml_delete_attribute: both strings are freed and set to NULL. */
  method DeleteAttribute(attr: XmlAttribute)
    modifies attr
    ensures attr.name.None? && attr.value.None?
  {
    attr.name := None;
    attr.value := None;
  }

  /**
   * xml_node: a name, the attributes and the children, each array holding
   * exactly attr_cnt and children_cnt pointers. Repr is the node, its
   * attributes and its children's Repr; tree is what the node prints.
   */
  class XmlNode {
    var name: Option<string>
    var attributes: seq<XmlAttribute>
    var children: seq<XmlNode>
    ghost var Repr: set<object>
    ghost var tree: Element

    /** What xml_delete_node leaves: a NULL name and no attributes or children. */
    predicate Cleared()
      reads this
    {
      name.None? && attributes == [] && children == []
    }

    /**
     * A tree: every name and value set and recorded in tree, the children's
     * subtrees inside Repr, below this node and apart from each other and
     * from this node's attributes.
     */
    ghost predicate Valid()
      reads this, Repr
      decreases Repr
    {
      && this in Repr
      && name == Some(tree.name)
      && |attributes| == |tree.attrs|
      && |children| == |tree.children|
      && (forall i :: 0 <= i < |attributes| ==>
            && attributes[i] in Repr
            && attributes[i].name == Some(tree.attrs[i].name)
            && attributes[i].value == Some(tree.attrs[i].value))
      && (forall i :: 0 <= i < |children| ==>
            && children[i] in Repr
            && children[i].Repr <= Repr
            && this !in children[i].Repr
            && children[i].Valid()
            && children[i].tree == tree.children[i])
      && (forall i, j :: 0 <= i < j < |children| ==> children[i].Repr !! children[j].Repr)
      && (forall i, j :: 0 <= i < |attributes| && 0 <= j < |children| ==> attributes[i] !in children[j].Repr)
    }

    /**
     * Repr holds nothing but the tree: this node, its attributes and its
     * children's Repr, and so on down.
     */
    ghost predicate Exact()
      requires Valid()
      reads this, Repr
      decreases Repr
    {
      && Repr == {this as object} + AttrObjects(attributes) + KidReprs(children)
      && (forall j :: 0 <= j < |children| ==> children[j].Exact())
    }

    /**
     * xml_add_attribute: the attribute pointer array grows by one (malloc
     * for the first, realloc after) and the attribute goes at index
     * attr_cnt; arrayGrown is whether that allocation succeeds.
     */
    method AddAttribute(attr: XmlAttribute, arrayGrown: bool) returns (ret: int)
      requires Valid() && attr.name.Some? && attr.value.Some? && attr !in Repr
      modifies this
      ensures Valid()
      ensures !arrayGrown ==> ret == -ENOMEM && unchanged(this)
      ensures arrayGrown ==> ret == 0 && attributes == old(attributes) + [attr] && Repr == old(Repr) + {attr}
      ensures arrayGrown ==> tree == old(tree).(attrs := old(tree.attrs) + [Attr(attr.name.value, attr.value.value)])
      ensures name == old(name) && children == old(children)
      ensures old(Exact()) ==> Exact()
    {
      if !arrayGrown {
        return -ENOMEM;
      }
      ghost var kids := KidReprs(children);
      attributes, Repr, tree := attributes + [attr], Repr + {attr}, tree.(attrs := tree.attrs + [Attr(attr.name.value, attr.value.value)]);
      ret := 0;
      assert KidReprs(children) == kids;
      assert AttrObjects(attributes) == AttrObjects(old(attributes)) + {attr} by {
        AttrObjectsSnoc(old(attributes), attr);
      }
    }

    /**
     * xml_add_node: the child pointer array grows by one and the child
     * goes at index children_cnt; arrayGrown is whether that allocation
     * succeeds. The child is a tree of its own, sharing nothing with this
     * one.
     */
    method AddNode(child: XmlNode, arrayGrown: bool) returns (ret: int)
      requires Valid() && child.Valid() && Repr !! child.Repr
      modifies this
      ensures Valid() && child.Valid()
      ensures !arrayGrown ==> ret == -ENOMEM && unchanged(this)
      ensures arrayGrown ==> ret == 0 && children == old(children) + [child] && Repr == old(Repr) + child.Repr
      ensures arrayGrown ==> tree == old(tree).(children := old(tree.children) + [child.tree])
      ensures name == old(name) && attributes == old(attributes)
      ensures old(Exact()) && old(child.Exact()) ==> Exact()
    {
      if !arrayGrown {
        return -ENOMEM;
      }
      ghost var kids := KidReprs(children);
      children, Repr, tree := children + [child], Repr + child.Repr, tree.(children := tree.children + [child.tree]);
      ret := 0;
      assert children[..|children| - 1] == old(children);
      assert KidReprs(children) == kids + child.Repr;
    }

    /** The node as malloc leaves it: no name yet, no attributes, no children. */
    constructor()
      ensures name.None? && attributes == [] && children == [] && Repr == {this}
    {
      name := None;
      attributes := [];
      children := [];
      Repr := {this};
      tree := Element([], [], []);
    }
  }

  /**
   * xml_create_node: allocate the node, with no attributes and no
   * children, then a copy of the name. mallocs is how many of the two
   * mallocs succeed; the first failure returns -ENOMEM.
   */
  method CreateNode(name: string, mallocs: nat) returns (ret: int, node: XmlNode?)
    ensures mallocs == 0 ==> ret == -ENOMEM && node == null
    ensures mallocs != 0 ==> node != null && fresh(node) && node.attributes == [] && node.children == []
    ensures mallocs == 1 ==> ret == -ENOMEM && node.name.None?
    ensures mallocs >= 2 ==> ret == 0 && node.Valid() && node.Exact() && fresh(node.Repr) && node.tree == Element(name, [], [])
  {
    if mallocs == 0 {
      return -ENOMEM, null;
    }
    node := new XmlNode();
    if mallocs == 1 {
      return -ENOMEM, node;
    }
    node.name := Some(name);
    node.tree := Element(name, [], []);
    ret := 0;
  }

  /**
   * xml_delete_node: the node's footprint splits into the node itself, its
   * attributes and its children's footprints, and DeleteParts releases
   * them. Every node of the tree ends cleared and every attribute's strings
   * NULL.
   */
  method DeleteNode(node: XmlNode)
    requires node.Valid() && node.Exact() && Bounded(node.tree)
    modifies node.Repr
    decreases node.Repr, 1
    ensures node.Repr == old(node.Repr)
    ensures node.Cleared()
    ensures forall o :: o in old(node.Repr) ==> Gone(o)
  {
    ghost var A := AttrObjects(node.attributes);
    ghost var R := KidReprs(node.children);
    ChildrenDeletable(node, A, R);
    DeleteParts(node, A, R);
  }

  /**
   * The body of xml_delete_node: the name is freed and set to NULL, each
   * attribute is deleted, then each child, and both arrays are freed and
   * left empty. A holds the attributes and R the children's footprints.
   */
  method DeleteParts(node: XmlNode, ghost A: set<object>, ghost R: set<object>)
    requires node !in A && node !in R && A !! R
    requires |node.attributes| < 256 && A == AttrObjects(node.attributes)
    requires Deletable(node.children, R) && R == KidReprs(node.children)
    modifies {node} + A + R
    decreases {node} + A + R, 0
    ensures node.Repr == old(node.Repr)
    ensures node.Cleared()
    ensures forall o :: o in {node} + A + R ==> Gone(o)
  {
    label Start:
    node.name := None;
    DeleteAttributes(node, A);
    node.attributes := [];
    assert unchanged@Start(R);
    DeleteChildren(node, R);
    KidReprsGone(node.children);
    node.children := [];
  }

  /**
   * Children that DeleteChildren can delete within R: each a bounded tree
   * whose footprint lies in R, apart from the others.
   */
  ghost predicate Deletable(kids: seq<XmlNode>, R: set<object>)
    reads R
  {
    && |kids| < 256
    && (forall j :: 0 <= j < |kids| ==>
          && kids[j] in R && kids[j].Repr <= R
          && kids[j].Valid() && kids[j].Exact() && Bounded(kids[j].tree))
    && (forall j, k :: 0 <= j < k < |kids| ==> kids[j].Repr !! kids[k].Repr)
  }

  /**
   * A node's footprint splits into the node, its attributes A and its
   * children's footprints R, and the children are deletable within R.
   */
  lemma ChildrenDeletable(node: XmlNode, A: set<object>, R: set<object>)
    requires node.Valid() && node.Exact() && Bounded(node.tree)
    requires A == AttrObjects(node.attributes) && R == KidReprs(node.children)
    ensures Deletable(node.children, R)
    ensures node !in A && node !in R && A !! R
    ensures node.Repr == {node} + A + R && |node.attributes| < 256
  {
    forall j | 0 <= j < |node.children|
      ensures node.children[j].Repr <= R
    {
      KidReprsHas(node.children, j);
    }
    KidReprsApart(node.children, A + {node});
  }

  /** Footprints that each miss X miss X together. */
  lemma {:induction false} KidReprsApart(cs: seq<XmlNode>, X: set<object>)
    requires forall j :: 0 <= j < |cs| ==> cs[j].Repr !! X
    ensures KidReprs(cs) !! X
    decreases |cs|
  {
    if cs != [] {
      KidReprsApart(cs[..|cs| - 1], X);
    }
  }

  /** The attribute loop of xml_delete_node: each attribute deleted in turn; A holds them and not the node. */
  method DeleteAttributes(node: XmlNode, ghost A: set<object>)
    requires |node.attributes| < 256 && node !in A
    requires A == AttrObjects(node.attributes)
    modifies A
    ensures forall i :: 0 <= i < |node.attributes| ==> node.attributes[i].name.None? && node.attributes[i].value.None?
    ensures forall o :: o in A ==> Gone(o)
  {
    var i := 0;
    while i < |node.attributes|
      invariant 0 <= i <= |node.attributes|
      invariant forall k :: 0 <= k < i ==> node.attributes[k].name.None? && node.attributes[k].value.None?
    {
      DeleteAttribute(node.attributes[i]);
      i := i + 1;
    }
  }

  /**
   * The child loop of xml_delete_node: each child deleted in turn, each
   * within its own footprint; R is their footprints together.
   */
  method DeleteChildren(node: XmlNode, ghost R: set<object>)
    requires node !in R && Deletable(node.children, R)
    modifies R
    decreases R, 2
    ensures forall k :: 0 <= k < |node.children| ==> node.children[k].Cleared()
    ensures forall k, o :: 0 <= k < |node.children| && o in old(node.children[k].Repr) ==> Gone(o)
  {
    ghost var kids := node.children;
    ghost var done: set<object> := {};
    var i := 0;
    while i < |node.children|
      invariant 0 <= i <= |kids| && node.children == kids
      invariant forall o :: o in done ==> Gone(o)
      invariant forall k :: 0 <= k < i ==> old(kids[k].Repr) <= done
      invariant forall j :: i <= j < |kids| ==> unchanged(old(kids[j].Repr))
    {
      done := done + kids[i].Repr;
      DeleteNode(node.children[i]);
      i := i + 1;
    }
  }

  /** xml_document: the text printed so far (buff up to index), the buffer size, and the reallocs still to be granted. */
  class XmlDocument {
    var text: string
    var size: int
    var reallocs: nat

    /** The document as a value. */
    ghost function State(): Doc
      reads this
    {
      Doc(text, size, reallocs)
    }

    /** A new document: an empty buffer of two increments. */
    constructor(reallocs: nat)
      ensures State() == NewDoc(reallocs)
    {
      text := [];
      size := 2 * BUFF_INCREMENTS;
      this.reallocs := reallocs;
    }

    /** sprintf at buff + index: the text grows by s and index moves past it. */
    method Append(s: string)
      modifies this
      ensures State() == Write(old(State()), s)
    {
      text := text + s;
    }

    /** A document whose buffer could not be allocated: nothing printed, no buffer. */
    constructor Unbuffered()
      ensures text == [] && size == 0
    {
      text := [];
      size := 0;
      reallocs := 0;
    }
  }

  /**
   * xml_create_document: a NULL document is first allocated (the struct,
   * then its 2048-byte buffer; docMalloc and buffMalloc say whether each
   * succeeds, and reallocs how many later reallocs will), then the node is
   * printed into it.
   */
  method CreateDocument(document: XmlDocument?, node: XmlNode, docMalloc: bool, buffMalloc: bool, reallocs: nat)
    returns (ret: int, doc: XmlDocument?)
    requires node.Valid() && Bounded(node.tree) && document !in node.Repr
    modifies document
    ensures document != null ==> doc == document && Emitted(doc.State(), ret) == Emit(old(document.State()), node.tree)
    ensures document == null && !docMalloc ==> ret == -ENOMEM && doc == null
    ensures document == null && docMalloc && !buffMalloc ==> ret == -ENOMEM && doc != null && fresh(doc) && doc.size == 0
    ensures document == null && docMalloc && buffMalloc ==>
              doc != null && fresh(doc) && Emitted(doc.State(), ret) == Emit(NewDoc(reallocs), node.tree)
  {
    doc := document;
    if doc == null {
      if !docMalloc {
        return -ENOMEM, null;
      }
      if !buffMalloc {
        doc := new XmlDocument.Unbuffered();
        return -ENOMEM, doc;
      }
      doc := new XmlDocument(reallocs);
    }
    ret := WriteNode(doc, node);
  }

  /**
   * The body of xml_create_document for an existing document: grow the
   * buffer if index is past size minus one increment, then print the node,
   * its attributes, and either "/>\n" or its children and closing tag.
   */
  method WriteNode(doc: XmlDocument, node: XmlNode) returns (ret: int)
    requires node.Valid() && Bounded(node.tree) && doc !in node.Repr
    modifies doc
    decreases node.Repr, 1
    ensures Emitted(doc.State(), ret) == Emit(old(doc.State()), node.tree)
  {
    if |doc.text| > doc.size - BUFF_INCREMENTS {
      if doc.reallocs == 0 {
        return -ENOMEM;
      }
      doc.size := doc.size + BUFF_INCREMENTS;
      doc.reallocs := doc.reallocs - 1;
    }
    ghost var e := node.tree;
    ghost var g := doc.State();
    assert Grow(old(doc.State())) == Some(g);
    assert node.name.value == e.name && (|node.children| == 0 <==> e.children == []);
    doc.Append("<" + node.name.value + " ");
    WriteAttributes(doc, node);
    assert doc.State() == Write(g, OpenText(e));
    if |node.children| == 0 {
      doc.Append("/>\n");
      return 0;
    }
    doc.Append(">\n");
    WriteChildren(doc, node);
    doc.Append(CloseText(node.name.value));
    ret := 0;
  }

  /** The attribute loop of xml_create_document: name="value" and a space, for each attribute in order. */
  method WriteAttributes(doc: XmlDocument, node: XmlNode)
    requires node.Valid() && Bounded(node.tree) && doc !in node.Repr
    modifies doc
    ensures doc.State() == Write(old(doc.State()), AttrsText(node.tree.attrs))
  {
    ghost var attrs := node.tree.attrs;
    var i := 0;
    while i < |node.attributes|
      invariant 0 <= i <= |attrs|
      invariant doc.State() == Write(old(doc.State()), AttrsText(attrs[..i]))
    {
      var a := node.attributes[i];
      assert attrs[..i + 1][..i] == attrs[..i];
      doc.Append(AttrText(Attr(a.name.value, a.value.value)));
      i := i + 1;
    }
    assert attrs[..i] == attrs;
  }

  /**
   * The child loop of xml_create_document: each child printed into the same
   * document, its return value dropped.
   */
  method WriteChildren(doc: XmlDocument, node: XmlNode)
    requires node.Valid() && Bounded(node.tree) && doc !in node.Repr
    modifies doc
    decreases node.Repr, 0
    ensures doc.State() == EmitAll(old(doc.State()), node.tree.children)
  {
    ghost var cs := node.tree.children;
    var i := 0;
    while i < |node.children|
      invariant 0 <= i <= |cs|
      invariant doc.State() == EmitAll(old(doc.State()), cs[..i])
    {
      assert cs[..i + 1][..i] == cs[..i];
      var _ := WriteNode(doc, node.children[i]);
      i := i + 1;
    }
    assert cs[..i] == cs;
  }
}
