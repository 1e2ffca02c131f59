/**
 The conversion of a parsed document into the node tree of the browser (lxb_walk_into of
 src/html_lexbor.c).  It walks with an explicit stack of pending sibling lists; what it builds is the tree
 that structural recursion builds.
 */
module TreeWalk {
  import opened Common
  import opened Locks

  // ---------- the tree of the parser ----------

  datatype SrcKind =
    | Document | Fragment | Element(htmlTemplate: bool) | Text | Cdata | Comment | Doctype
    | ProcessingInstruction | Attribute | EntityReference | Entity | Notation | Unknown

  /** A node of the parser.  `data` stands for the name and attributes, the text or the identifiers that the
      conversion copies; `content` are the children of the content fragment, if it is an element with one. */
  datatype Src = Src(kind: SrcKind, data: string, children: seq<Src>, content: seq<Src>)

  /** lxb_template_content_first_child, with the siblings behind it */
  function TemplateKids(s: Src): seq<Src> {
    if s.kind.Element? && s.kind.htmlTemplate then s.content else []
  }

  datatype OutKind = DocumentNode | ElementNode | TextNode | CommentNode | DoctypeNode

  datatype Label = Label(kind: OutKind, data: string)

  /** lxb_node_convert: some kinds of nodes have no counterpart. */
  function Convert(s: Src): Option<Label> {
    match s.kind
    case Document => Some(Label(DocumentNode, ""))
    case Fragment => Some(Label(DocumentNode, ""))
    case Element(_) => Some(Label(ElementNode, s.data))
    case Text => Some(Label(TextNode, s.data))
    case Cdata => Some(Label(TextNode, s.data))
    case Comment => Some(Label(CommentNode, s.data))
    case Doctype => Some(Label(DoctypeNode, s.data))
    case _ => None
  }

  const CONTENT_LABEL := Label(DocumentNode, "")

  // ---------- structural recursion ----------

  /** A finished tree. */
  datatype Out = Out(tag: Label, children: seq<Out>, content: Option<Out>)

  /** The children in source order, those without a counterpart dropped with all that is below them. */
  ghost function BuildAll(list: seq<Src>): seq<Out>
    decreases list
  {
    if list == [] then []
    else
      var s := list[0];
      var rest := BuildAll(list[1..]);
      if Convert(s).None? then rest
      else
        var content := if TemplateKids(s) == [] then None else Some(Out(CONTENT_LABEL, BuildAll(TemplateKids(s)), None));
        [Out(Convert(s).value, BuildAll(s.children), content)] + rest
  }

  ghost function Build(s: Src): Out
    requires Convert(s).Some?
  {
    Out(Convert(s).value, BuildAll(s.children),
        if TemplateKids(s) == [] then None else Some(Out(CONTENT_LABEL, BuildAll(TemplateKids(s)), None)))
  }

  lemma BuildAllCons(s: Src, rest: seq<Src>)
    ensures BuildAll([s] + rest) == if Convert(s).None? then BuildAll(rest) else [Build(s)] + BuildAll(rest)
  {
    assert ([s] + rest)[1..] == rest;
  }

  // ---------- the document, in the order in which it is read ----------

  /** What a reader of a document meets, one after another */
  datatype Mark =
    | Opens(name: string) | Closes | Chars(text: string) | Remark(text: string) | Declares(identifiers: string)
    | OpensPart | ClosesPart

  /** A node of the parser as it is read, with what is met in it and in its content: elements around what is in them,
      character data, whether it was marked as such or not, remarks, document types.  Nothing else is met, nor what is
      below it. */
  function MetOne(kind: SrcKind, data: string, held: seq<Mark>, inner: seq<Mark>): seq<Mark> {
    match kind
    case Document => [OpensPart] + held + inner + [ClosesPart]
    case Fragment => [OpensPart] + held + inner + [ClosesPart]
    case Element(_) => [Opens(data)] + held + inner + [Closes]
    case Text => [Chars(data)] + inner
    case Cdata => [Chars(data)] + inner
    case Comment => [Remark(data)] + inner
    case Doctype => [Declares(data)] + inner
    case ProcessingInstruction => [] case Attribute => [] case EntityReference => []
    case Entity => [] case Notation => [] case Unknown => []
  }

  ghost function Met(list: seq<Src>): seq<Mark>
    decreases list
  {
    if list == [] then []
    else
      var s := list[0];
      var held := if s.kind == Element(true) && s.content != [] then [OpensPart] + Met(s.content) + [ClosesPart] else [];
      MetOne(s.kind, s.data, held, Met(s.children)) + Met(list[1..])
  }

  /** A node of the browser as it is read */
  function ShownOne(tag: Label, held: seq<Mark>, inner: seq<Mark>): seq<Mark> {
    match tag.kind
    case DocumentNode => [OpensPart] + held + inner + [ClosesPart]
    case ElementNode => [Opens(tag.data)] + held + inner + [Closes]
    case TextNode => [Chars(tag.data)] + inner
    case CommentNode => [Remark(tag.data)] + inner
    case DoctypeNode => [Declares(tag.data)] + inner
  }

  ghost function ShownNode(n: Out): seq<Mark>
    decreases n, 0
  {
    ShownOne(n.tag, if n.content.None? then [] else ShownNode(n.content.value), Shown(n.children))
  }

  ghost function Shown(list: seq<Out>): seq<Mark>
    decreases list, 1
  {
    if list == [] then [] else ShownNode(list[0]) + Shown(list[1..])
  }

  lemma {:induction false} OneReadsAlike(s: Src, held: seq<Mark>, inner: seq<Mark>)
    ensures Convert(s).None? ==> MetOne(s.kind, s.data, held, inner) == []
    ensures Convert(s).Some? ==> MetOne(s.kind, s.data, held, inner) == ShownOne(Convert(s).value, held, inner)
  {
  }

  lemma ShownCons(n: Out, rest: seq<Out>)
    ensures Shown([n] + rest) == ShownNode(n) + Shown(rest)
  {
    assert ([n] + rest)[1..] == rest;
  }

  lemma PartReads(list: seq<Out>)
    ensures ShownNode(Out(CONTENT_LABEL, list, None)) == [OpensPart] + Shown(list) + [ClosesPart]
  {
  }

  lemma NodeReads(s: Src, part: seq<Mark>, held: seq<Mark>)
    requires Convert(s).Some? && Shown(BuildAll(s.content)) == part
    requires held == if s.kind == Element(true) && s.content != [] then [OpensPart] + part + [ClosesPart] else []
    ensures ShownNode(Build(s)) == MetOne(s.kind, s.data, held, Shown(BuildAll(s.children)))
  {
    PartReads(BuildAll(s.content));
    OneReadsAlike(s, held, Shown(BuildAll(s.children)));
  }

  /** Who reads the tree that is built meets what the parser has read, in its order. */
  lemma {:induction false} BuiltReadsAlike(list: seq<Src>)
    ensures Shown(BuildAll(list)) == Met(list)
    decreases list
  {
    if list != [] {
      var s := list[0];
      BuiltReadsAlike(s.children);
      BuiltReadsAlike(s.content);
      BuiltReadsAlike(list[1..]);
      assert list == [s] + list[1..];
      BuildAllCons(s, list[1..]);
      var held := if s.kind == Element(true) && s.content != [] then [OpensPart] + Met(s.content) + [ClosesPart] else [];
      if Convert(s).Some? {
        ShownCons(Build(s), BuildAll(list[1..]));
        NodeReads(s, Met(s.content), held);
      } else {
        OneReadsAlike(s, held, Met(s.children));
      }
    }
  }

  /** How many nodes a list of siblings holds. */
  ghost function Size(list: seq<Src>): nat
    decreases list
  {
    if list == [] then 0
    else
      var s := list[0];
      1 + Size(s.children) + (if TemplateKids(s) == [] then 0 else Size(TemplateKids(s))) + Size(list[1..])
  }

  // ---------- the tree that is built ----------

  class OutNode {
    const tag: Label
    var children: seq<OutNode>
    var content: OutNode?

    constructor (tag: Label)
      ensures this.tag == tag && children == [] && content == null
    {
      this.tag, children, content := tag, [], null;
    }
  }

  datatype Rec = Rec(tag: Label, children: seq<OutNode>, content: OutNode?)

  type Heap = map<OutNode, Rec>

  ghost function HeapOf(s: set<OutNode>): Heap
    reads s
  {
    map n | n in s :: Rec(n.tag, n.children, n.content)
  }

  /** When each node was made: children are younger than their parent. */
  datatype Ages = Ages(rank: map<OutNode, nat>, bound: nat)

  ghost predicate Wf(h: Heap, a: Ages) {
    a.rank.Keys == h.Keys && forall n :: n in h ==> NodeWf(h, a, n)
  }

  ghost predicate NodeWf(h: Heap, a: Ages, n: OutNode)
    requires n in h && a.rank.Keys == h.Keys
  {
    && a.rank[n] < a.bound
    && (forall i :: 0 <= i < |h[n].children| ==> Younger(h, a, n, h[n].children[i]))
    && (h[n].content != null ==> Younger(h, a, n, h[n].content))
  }

  ghost predicate Younger(h: Heap, a: Ages, n: OutNode, c: OutNode)
    requires n in h && a.rank.Keys == h.Keys
  {
    c in h && a.rank[n] < a.rank[c]
  }

  /** A list of siblings that still has to be converted, and where it goes: an entry of the stack. */
  datatype Frame = Frame(rest: seq<Src>, parent: OutNode)

  /** What the frames, from the top of the stack down, will still append to a node. */
  ghost function Pending(stack: seq<Frame>, n: OutNode): seq<Out> {
    if stack == [] then []
    else
      var top := stack[|stack| - 1];
      (if top.parent == n then BuildAll(top.rest) else []) + Pending(stack[..|stack| - 1], n)
  }

  /** The tree below a node as it will be once all frames are done. */
  ghost function Completed(h: Heap, a: Ages, stack: seq<Frame>, n: OutNode): Out
    requires Wf(h, a) && n in h
    decreases a.bound - a.rank[n], 1
  {
    assert NodeWf(h, a, n);
    Out(h[n].tag, CompletedKids(h, a, stack, n) + Pending(stack, n),
        if h[n].content == null then None else Some(Completed(h, a, stack, h[n].content)))
  }

  ghost function CompletedKids(h: Heap, a: Ages, stack: seq<Frame>, n: OutNode): (r: seq<Out>)
    requires Wf(h, a) && n in h
    ensures |r| == |h[n].children|
    ensures forall i :: 0 <= i < |r| ==>
      NodeWf(h, a, n) && Younger(h, a, n, h[n].children[i]) && r[i] == Completed(h, a, stack, h[n].children[i])
    decreases a.bound - a.rank[n], 0
  {
    assert NodeWf(h, a, n);
    seq(|h[n].children|, i requires 0 <= i < |h[n].children| =>
      assert Younger(h, a, n, h[n].children[i]); Completed(h, a, stack, h[n].children[i]))
  }

  /** The tree below a node as it is. */
  ghost function Shape(h: Heap, a: Ages, n: OutNode): Out
    requires Wf(h, a) && n in h
  {
    Completed(h, a, [], n)
  }

  // ---------- steps that change nothing ----------

  lemma PendingPush(stack: seq<Frame>, f: Frame, n: OutNode)
    ensures Pending(stack + [f], n) == (if f.parent == n then BuildAll(f.rest) else []) + Pending(stack, n)
  {
    assert (stack + [f])[..|stack|] == stack;
  }

  /** A later state of the heap, as far as the nodes from `n` on are concerned. */
  ghost predicate Same(h: Heap, a: Ages, stack: seq<Frame>, g: Heap, b: Ages, later: seq<Frame>, m: OutNode)
    requires m in h
  {
    m in g && g[m] == h[m] && m in a.rank && m in b.rank && b.rank[m] == a.rank[m] && Pending(later, m) == Pending(stack, m)
  }

  lemma {:induction false} Unchanged(h: Heap, a: Ages, stack: seq<Frame>, g: Heap, b: Ages, later: seq<Frame>, n: OutNode)
    requires Wf(h, a) && Wf(g, b) && n in h
    requires forall m :: m in h && a.rank[m] >= a.rank[n] ==> Same(h, a, stack, g, b, later, m)
    ensures n in g && Completed(g, b, later, n) == Completed(h, a, stack, n)
    decreases a.bound - a.rank[n]
  {
    assert Same(h, a, stack, g, b, later, n);
    assert NodeWf(h, a, n) && NodeWf(g, b, n);
    forall i | 0 <= i < |h[n].children|
      ensures CompletedKids(g, b, later, n)[i] == CompletedKids(h, a, stack, n)[i] {
      assert Younger(h, a, n, h[n].children[i]);
      Unchanged(h, a, stack, g, b, later, h[n].children[i]);
    }
    assert CompletedKids(g, b, later, n) == CompletedKids(h, a, stack, n);
    if h[n].content != null {
      assert Younger(h, a, n, h[n].content);
      Unchanged(h, a, stack, g, b, later, h[n].content);
    }
  }

  /** If a step changes only `p`, and not its completion, it changes no completion. */
  lemma {:induction false} Carried(h: Heap, a: Ages, stack: seq<Frame>, g: Heap, b: Ages, later: seq<Frame>,
                                   p: OutNode, n: OutNode)
    requires Wf(h, a) && Wf(g, b) && n in h && p in h && p in g
    requires forall m :: m in h && m != p ==> Same(h, a, stack, g, b, later, m)
    requires Completed(g, b, later, p) == Completed(h, a, stack, p)
    ensures n in g && Completed(g, b, later, n) == Completed(h, a, stack, n)
    decreases a.bound - a.rank[n]
  {
    if n != p {
      assert Same(h, a, stack, g, b, later, n);
      assert NodeWf(h, a, n) && NodeWf(g, b, n);
      forall i | 0 <= i < |h[n].children|
        ensures CompletedKids(g, b, later, n)[i] == CompletedKids(h, a, stack, n)[i] {
        assert Younger(h, a, n, h[n].children[i]);
        Carried(h, a, stack, g, b, later, p, h[n].children[i]);
      }
      assert CompletedKids(g, b, later, n) == CompletedKids(h, a, stack, n);
      if h[n].content != null {
        assert Younger(h, a, n, h[n].content);
        Carried(h, a, stack, g, b, later, p, h[n].content);
      }
    }
  }

  lemma SamePending(h: Heap, a: Ages, stack: seq<Frame>, later: seq<Frame>, n: OutNode)
    requires Wf(h, a) && n in h && forall m :: m in h ==> Pending(later, m) == Pending(stack, m)
    ensures Completed(h, a, later, n) == Completed(h, a, stack, n)
  {
    Unchanged(h, a, stack, h, a, later, n);
  }

  // ---------- converting one node ----------

  /** The heap after `j` was made and appended to `p`, and given the content fragment `t` if it has one. */
  ghost function Added(h: Heap, p: OutNode, tag: Label, j: OutNode, t: OutNode?): Heap
    requires p in h
  {
    var g := h[p := h[p].(children := h[p].children + [j])][j := Rec(tag, [], t)];
    if t == null then g else g[t := Rec(CONTENT_LABEL, [], null)]
  }

  ghost function Older(a: Ages, j: OutNode, t: OutNode?): Ages {
    if t == null then Ages(a.rank[j := a.bound], a.bound + 1)
    else Ages(a.rank[j := a.bound][t := a.bound + 1], a.bound + 2)
  }

  lemma AddedWf(h: Heap, a: Ages, p: OutNode, tag: Label, j: OutNode, t: OutNode?)
    requires Wf(h, a) && p in h && j !in h && t != j && (t != null ==> t !in h)
    ensures Wf(Added(h, p, tag, j, t), Older(a, j, t))
  {
    var g, b := Added(h, p, tag, j, t), Older(a, j, t);
    forall n | n in g ensures NodeWf(g, b, n) {
      if n in h { assert NodeWf(h, a, n); }
      forall i | 0 <= i < |g[n].children| ensures Younger(g, b, n, g[n].children[i]) {
        if n in h && i < |h[n].children| { assert Younger(h, a, n, h[n].children[i]); }
      }
    }
  }

  /** The frames after a node was converted: its siblings, its template content, its children. */
  ghost function PushedFor(stack: seq<Frame>, s: Src, rest: seq<Src>, p: OutNode, j: OutNode, t: OutNode?): seq<Frame> {
    var withNext := stack + [Frame(rest, p)];
    (if t == null then withNext else withNext + [Frame(TemplateKids(s), t)]) + [Frame(s.children, j)]
  }

  lemma PendingAfter(stack: seq<Frame>, s: Src, rest: seq<Src>, p: OutNode, j: OutNode, t: OutNode?, m: OutNode)
    requires p != j && p != t && j != t
    ensures var later := PushedFor(stack, s, rest, p, j, t);
            Pending(later, m) ==
            (if m == j then BuildAll(s.children) else []) + ((if m == t then BuildAll(TemplateKids(s)) else []) +
            ((if m == p then BuildAll(rest) else []) + Pending(stack, m)))
  {
    var withNext := stack + [Frame(rest, p)];
    PendingPush(stack, Frame(rest, p), m);
    if t == null {
      PendingPush(withNext, Frame(s.children, j), m);
    } else {
      PendingPush(withNext, Frame(TemplateKids(s), t), m);
      PendingPush(withNext + [Frame(TemplateKids(s), t)], Frame(s.children, j), m);
    }
  }

  ghost predicate Unseen(stack: seq<Frame>, n: OutNode) {
    forall i :: 0 <= i < |stack| ==> stack[i].parent != n
  }

  lemma {:induction false} UnseenPending(stack: seq<Frame>, n: OutNode)
    requires Unseen(stack, n)
    ensures Pending(stack, n) == []
  {
    if stack != [] { UnseenPending(stack[..|stack| - 1], n); }
  }

  /** A fresh node is completed to what structural recursion makes of its source. */
  lemma FreshNode(h: Heap, a: Ages, stack: seq<Frame>, s: Src, rest: seq<Src>, p: OutNode, j: OutNode, t: OutNode?)
    requires Wf(h, a) && p in h && j !in h && t != j && (t != null ==> t !in h) && Convert(s).Some?
    requires Unseen(stack, j) && (t != null ==> Unseen(stack, t)) && (t == null <==> TemplateKids(s) == [])
    ensures var g, b := Added(h, p, Convert(s).value, j, t), Older(a, j, t);
            Wf(g, b) && j in g &&
            Completed(g, b, PushedFor(stack, s, rest, p, j, t), j) == Build(s)
  {
    var g, b, later := Added(h, p, Convert(s).value, j, t), Older(a, j, t), PushedFor(stack, s, rest, p, j, t);
    AddedWf(h, a, p, Convert(s).value, j, t);
    UnseenPending(stack, j);
    PendingAfter(stack, s, rest, p, j, t, j);
    assert CompletedKids(g, b, later, j) == [];
    assert Pending(later, j) == BuildAll(s.children);
    if t != null {
      UnseenPending(stack, t);
      PendingAfter(stack, s, rest, p, j, t, t);
      assert CompletedKids(g, b, later, t) == [];
      assert Pending(later, t) == BuildAll(TemplateKids(s));
      assert Completed(g, b, later, t) == Out(CONTENT_LABEL, BuildAll(TemplateKids(s)), None);
    }
  }

  /** Appending the fresh node makes up for taking its source off the list. */
  lemma ParentKept(h: Heap, a: Ages, stack: seq<Frame>, s: Src, rest: seq<Src>, p: OutNode, j: OutNode, t: OutNode?)
    requires Wf(h, a) && p in h && j !in h && t != j && (t != null ==> t !in h) && Convert(s).Some?
    requires Unseen(stack, j) && (t != null ==> Unseen(stack, t)) && (t == null <==> TemplateKids(s) == [])
    ensures var g, b := Added(h, p, Convert(s).value, j, t), Older(a, j, t);
            Wf(g, b) &&
            Completed(g, b, PushedFor(stack, s, rest, p, j, t), p) == Completed(h, a, stack + [Frame([s] + rest, p)], p)
  {
    var g, b, later := Added(h, p, Convert(s).value, j, t), Older(a, j, t), PushedFor(stack, s, rest, p, j, t);
    var before := stack + [Frame([s] + rest, p)];
    FreshNode(h, a, stack, s, rest, p, j, t);
    PendingPush(stack, Frame([s] + rest, p), p);
    PendingAfter(stack, s, rest, p, j, t, p);
    BuildAllCons(s, rest);
    KidsKept(h, a, before, g, b, later, p, j, t, Convert(s).value, s, rest, stack);
    Regroup(CompletedKids(h, a, before, p), CompletedKids(g, b, later, p), Build(s), BuildAll(rest), Pending(stack, p),
            Pending(before, p), Pending(later, p));
    assert NodeWf(h, a, p);
    if h[p].content != null { ContentKept(h, a, before, g, b, later, p, j, t, Convert(s).value, s, rest, stack); }
  }

  lemma Regroup(was: seq<Out>, now: seq<Out>, made: Out, rest: seq<Out>, below: seq<Out>, before: seq<Out>, later: seq<Out>)
    requires |now| == |was| + 1 && now[|was|] == made && forall i :: 0 <= i < |was| ==> now[i] == was[i]
    requires before == ([made] + rest) + below && later == [] + ([] + (rest + below))
    ensures now + later == was + before
  {
  }

  lemma OthersSame(h: Heap, a: Ages, before: seq<Frame>, g: Heap, b: Ages, later: seq<Frame>, p: OutNode, j: OutNode,
                   t: OutNode?, tag: Label, s: Src, rest: seq<Src>, stack: seq<Frame>)
    requires Wf(h, a) && p in h && j !in h && t != j && (t != null ==> t !in h)
    requires g == Added(h, p, tag, j, t) && b == Older(a, j, t)
    requires before == stack + [Frame([s] + rest, p)] && later == PushedFor(stack, s, rest, p, j, t)
    ensures forall m :: m in h && m != p ==> Same(h, a, before, g, b, later, m)
  {
    forall m | m in h && m != p ensures Same(h, a, before, g, b, later, m) {
      PendingPush(stack, Frame([s] + rest, p), m);
      PendingAfter(stack, s, rest, p, j, t, m);
    }
  }

  lemma KidsKept(h: Heap, a: Ages, before: seq<Frame>, g: Heap, b: Ages, later: seq<Frame>, p: OutNode, j: OutNode,
                 t: OutNode?, tag: Label, s: Src, rest: seq<Src>, stack: seq<Frame>)
    requires Wf(h, a) && Wf(g, b) && p in h && j !in h && t != j && (t != null ==> t !in h)
    requires g == Added(h, p, tag, j, t) && b == Older(a, j, t)
    requires before == stack + [Frame([s] + rest, p)] && later == PushedFor(stack, s, rest, p, j, t)
    ensures |CompletedKids(g, b, later, p)| == |h[p].children| + 1
    ensures forall i :: 0 <= i < |h[p].children| ==>
              CompletedKids(g, b, later, p)[i] == CompletedKids(h, a, before, p)[i]
    ensures j in g && CompletedKids(g, b, later, p)[|h[p].children|] == Completed(g, b, later, j)
  {
    assert NodeWf(h, a, p) && NodeWf(g, b, p);
    OthersSame(h, a, before, g, b, later, p, j, t, tag, s, rest, stack);
    forall i | 0 <= i < |h[p].children|
      ensures CompletedKids(g, b, later, p)[i] == CompletedKids(h, a, before, p)[i] {
      assert Younger(h, a, p, h[p].children[i]);
      Unchanged(h, a, before, g, b, later, h[p].children[i]);
    }
  }

  lemma ContentKept(h: Heap, a: Ages, before: seq<Frame>, g: Heap, b: Ages, later: seq<Frame>, p: OutNode, j: OutNode,
                    t: OutNode?, tag: Label, s: Src, rest: seq<Src>, stack: seq<Frame>)
    requires Wf(h, a) && Wf(g, b) && p in h && j !in h && t != j && (t != null ==> t !in h)
    requires g == Added(h, p, tag, j, t) && b == Older(a, j, t) && h[p].content != null
    requires before == stack + [Frame([s] + rest, p)] && later == PushedFor(stack, s, rest, p, j, t)
    ensures h[p].content in h && h[p].content in g
    ensures Completed(g, b, later, h[p].content) == Completed(h, a, before, h[p].content)
  {
    assert NodeWf(h, a, p);
    OthersSame(h, a, before, g, b, later, p, j, t, tag, s, rest, stack);
    assert Younger(h, a, p, h[p].content);
    Unchanged(h, a, before, g, b, later, h[p].content);
  }

  /** Converting one node does not change what any older node will become. */
  lemma ConvertKeeps(h: Heap, a: Ages, stack: seq<Frame>, s: Src, rest: seq<Src>, p: OutNode, j: OutNode, t: OutNode?,
                     n: OutNode)
    requires Wf(h, a) && p in h && n in h && j !in h && t != j && (t != null ==> t !in h) && Convert(s).Some?
    requires Unseen(stack, j) && (t != null ==> Unseen(stack, t)) && (t == null <==> TemplateKids(s) == [])
    ensures var g, b := Added(h, p, Convert(s).value, j, t), Older(a, j, t);
            Wf(g, b) && n in g &&
            Completed(g, b, PushedFor(stack, s, rest, p, j, t), n) == Completed(h, a, stack + [Frame([s] + rest, p)], n)
  {
    var g, b, later := Added(h, p, Convert(s).value, j, t), Older(a, j, t), PushedFor(stack, s, rest, p, j, t);
    var before := stack + [Frame([s] + rest, p)];
    ParentKept(h, a, stack, s, rest, p, j, t);
    OthersSame(h, a, before, g, b, later, p, j, t, Convert(s).value, s, rest, stack);
    Carried(h, a, before, g, b, later, p, n);
  }

  // ---------- the walk ----------

  /** ns_node_append_child for a new node, and ns_template_content_get for it */
  method Adopt(parent: OutNode, tag: Label, withContent: bool, ghost repr: set<OutNode>)
    returns (node: OutNode, content: OutNode?)
    requires parent in repr
    modifies parent`children
    ensures fresh(node) && (content != null ==> fresh(content)) && content != node && (content != null <==> withContent)
    ensures node !in repr && content !in repr
    ensures HeapOf(repr + {node} + (if content == null then {} else {content})) ==
            Added(old(HeapOf(repr)), parent, tag, node, content)
  {
    content := null;
    node := new OutNode(tag);
    if withContent {
      content := new OutNode(CONTENT_LABEL);
      node.content := content;
    }
    parent.children := parent.children + [node];
  }

  ghost predicate FramesIn(stack: seq<Frame>, repr: set<OutNode>) {
    forall i :: 0 <= i < |stack| ==> stack[i].parent in repr
  }

  /** The walk between two steps: the nodes made so far, and what the root will be in the end. */
  ghost predicate Walking(repr: set<OutNode>, a: Ages, stack: seq<Frame>, root: OutNode, goal: Out)
    reads repr
  {
    FramesIn(stack, repr) && root in repr && forall key {:trigger Open(key)} :: Key(key) ==>
      Becomes(HeapOf(repr), a, stack, root, goal)
  }

  ghost predicate Becomes(h: Heap, a: Ages, stack: seq<Frame>, root: OutNode, goal: Out) {
    Wf(h, a) && root in h && Completed(h, a, stack, root) == goal
  }

  lemma OpenWalk(repr: set<OutNode>, a: Ages, stack: seq<Frame>, root: OutNode, goal: Out)
    requires Walking(repr, a, stack, root, goal)
    ensures Becomes(HeapOf(repr), a, stack, root, goal)
  {
    assert Open(true);
  }

  lemma EmptyFrame(repr: set<OutNode>, a: Ages, stack: seq<Frame>, p: OutNode, root: OutNode, goal: Out)
    requires Walking(repr, a, stack + [Frame([], p)], root, goal)
    ensures Walking(repr, a, stack, root, goal)
  {
    assert stack + [Frame([], p)] == stack + [Frame([], p)] + [] && stack + [] == stack;
    EmptyInside(repr, a, stack, p, [], root, goal);
  }

  /** A node without a counterpart is skipped. */
  lemma SkipKeeps(repr: set<OutNode>, a: Ages, stack: seq<Frame>, s: Src, rest: seq<Src>, p: OutNode, root: OutNode, goal: Out)
    requires Convert(s).None? && Walking(repr, a, stack + [Frame([s] + rest, p)], root, goal)
    ensures Walking(repr, a, stack + [Frame(rest, p)], root, goal)
  {
    var before, after := stack + [Frame([s] + rest, p)], stack + [Frame(rest, p)];
    OpenWalk(repr, a, before, root, goal);
    assert before[|stack|].parent in repr;
    forall i | 0 <= i < |stack| ensures stack[i].parent in repr { assert before[i].parent in repr; }
    BuildAllCons(s, rest);
    forall m ensures Pending(after, m) == Pending(before, m) {
      PendingPush(stack, Frame([s] + rest, p), m);
      PendingPush(stack, Frame(rest, p), m);
    }
    SamePending(HeapOf(repr), a, before, after, root);
    assert Becomes(HeapOf(repr), a, after, root, goal);
  }

  ghost function Weight(stack: seq<Frame>): nat {
    if stack == [] then 0 else Size(stack[|stack| - 1].rest) + Weight(stack[..|stack| - 1])
  }

  lemma WeightPush(stack: seq<Frame>, f: Frame)
    ensures Weight(stack + [f]) == Weight(stack) + Size(f.rest)
  {
    assert (stack + [f])[..|stack|] == stack;
  }

  /** One round of the inner loop for a node with a counterpart: it is made and appended, its siblings and its
      template content are put on the stack, and the walk goes on with its children. */
  method ConvertOne(stack: seq<Frame>, s: Src, rest: seq<Src>, p: OutNode, tag: Label, ghost repr: set<OutNode>,
                    ghost a: Ages, ghost root: OutNode, ghost goal: Out)
    returns (later: seq<Frame>, cur: seq<Src>, parent: OutNode, ghost now: set<OutNode>, ghost b: Ages)
    requires Walking(repr, a, stack + [Frame([s] + rest, p)], root, goal) && p in repr && Convert(s) == Some(tag)
    modifies p`children
    ensures Walking(now, b, later + [Frame(cur, parent)], root, goal) && parent in now
    ensures repr <= now && fresh(now - repr)
    ensures Weight(later) + Size(cur) < Weight(stack) + Size([s] + rest)
  {
    var kids, tpl := s.children, TemplateKids(s);
    assert ([s] + rest)[1..] == rest;
    FramesBelow(stack, Frame([s] + rest, p), repr);
    OpenWalk(repr, a, stack + [Frame([s] + rest, p)], root, goal);
    var converted, content := Adopt(p, tag, tpl != [], repr);
    ConvertKeeps(old(HeapOf(repr)), a, stack, s, rest, p, converted, content, root);
    now, b := repr + {converted} + (if content == null then {} else {content}), Older(a, converted, content);
    PushedFrames(stack, s, rest, p, converted, content, now);
    assert Becomes(HeapOf(now), b, PushedFor(stack, s, rest, p, converted, content), root, goal);
    later, cur, parent := Queue(stack, s, rest, p, converted, content, now, b, root, goal);
  }

  lemma FramesBelow(stack: seq<Frame>, f: Frame, repr: set<OutNode>)
    requires FramesIn(stack + [f], repr)
    ensures FramesIn(stack, repr) && f.parent in repr && forall n :: n !in repr ==> Unseen(stack, n)
  {
    var more := stack + [f];
    assert more[|stack|] == f;
    forall i | 0 <= i < |stack| ensures stack[i].parent in repr { assert more[i].parent in repr; }
  }

  lemma PushedFrames(stack: seq<Frame>, s: Src, rest: seq<Src>, p: OutNode, j: OutNode, t: OutNode?, now: set<OutNode>)
    requires forall i :: 0 <= i < |stack| ==> stack[i].parent in now
    requires p in now && j in now && (t != null ==> t in now)
    ensures FramesIn(PushedFor(stack, s, rest, p, j, t), now)
  {
  }

  /** What goes on the stack: nothing for a list that is empty. */
  method Queue(stack: seq<Frame>, s: Src, rest: seq<Src>, p: OutNode, converted: OutNode, content: OutNode?,
               ghost now: set<OutNode>, ghost b: Ages, ghost root: OutNode, ghost goal: Out)
    returns (later: seq<Frame>, cur: seq<Src>, parent: OutNode)
    requires Walking(now, b, PushedFor(stack, s, rest, p, converted, content), root, goal)
    requires p in now && converted in now && (content != null ==> content in now)
    requires content == null <==> TemplateKids(s) == []
    ensures Walking(now, b, later + [Frame(cur, parent)], root, goal) && parent in now
    ensures Weight(later) + Size(cur) < Weight(stack) + Size([s] + rest)
  {
    assert ([s] + rest)[1..] == rest;
    later := stack;
    if rest != [] { later := later + [Frame(rest, p)]; }
    if content != null { later := later + [Frame(TemplateKids(s), content)]; }
    QueueKeeps(stack, s, rest, p, converted, content, now, b, root, goal, later);
    cur, parent := s.children, converted;
  }

  lemma QueueKeeps(stack: seq<Frame>, s: Src, rest: seq<Src>, p: OutNode, j: OutNode, t: OutNode?,
                   now: set<OutNode>, b: Ages, root: OutNode, goal: Out, later: seq<Frame>)
    requires Walking(now, b, PushedFor(stack, s, rest, p, j, t), root, goal)
    requires t == null <==> TemplateKids(s) == []
    requires later == (if rest == [] then stack else stack + [Frame(rest, p)]) +
                      if t == null then [] else [Frame(TemplateKids(s), t)]
    ensures Walking(now, b, later + [Frame(s.children, j)], root, goal)
    ensures Weight(later) == Weight(stack) + Size(rest) + if t == null then 0 else Size(TemplateKids(s))
  {
    var content: seq<Frame> := if t == null then [] else [Frame(TemplateKids(s), t)];
    var tail := content + [Frame(s.children, j)];
    QueueWeight(stack, Frame(rest, p), content, later);
    Flatten(stack + [Frame(rest, p)], content, Frame(s.children, j));
    assert PushedFor(stack, s, rest, p, j, t) == stack + [Frame(rest, p)] + tail;
    if rest == [] {
      Flatten(stack, content, Frame(s.children, j));
      EmptyInside(now, b, stack, p, tail, root, goal);
    }
  }

  lemma Flatten(a: seq<Frame>, b: seq<Frame>, f: Frame)
    ensures a + b + [f] == a + (b + [f])
    ensures a + [] == a
  {
  }

  lemma QueueWeight(stack: seq<Frame>, next: Frame, content: seq<Frame>, later: seq<Frame>)
    requires |content| <= 1 && later == (if next.rest == [] then stack else stack + [next]) + content
    ensures Weight(later) == Weight(stack) + Size(next.rest) + if content == [] then 0 else Size(content[0].rest)
  {
    var base := if next.rest == [] then stack else stack + [next];
    WeightPush(stack, next);
    if content == [] {
      assert later == base;
    } else {
      WeightPush(base, content[0]);
      assert content == [content[0]];
    }
  }

  /** A frame with nothing left in it may be left out anywhere. */
  lemma EmptyInside(repr: set<OutNode>, a: Ages, stack: seq<Frame>, p: OutNode, tail: seq<Frame>, root: OutNode, goal: Out)
    requires Walking(repr, a, stack + [Frame([], p)] + tail, root, goal)
    ensures Walking(repr, a, stack + tail, root, goal)
  {
    var full, short := stack + [Frame([], p)] + tail, stack + tail;
    OpenWalk(repr, a, full, root, goal);
    forall i | 0 <= i < |short| ensures short[i].parent in repr {
      assert short[i] == full[if i < |stack| then i else i + 1];
      assert full[if i < |stack| then i else i + 1].parent in repr;
    }
    forall m ensures Pending(short, m) == Pending(full, m) { PendingInside(stack, p, tail, m); }
    SamePending(HeapOf(repr), a, full, short, root);
    assert Becomes(HeapOf(repr), a, short, root, goal);
  }

  lemma {:induction false} PendingInside(stack: seq<Frame>, p: OutNode, tail: seq<Frame>, m: OutNode)
    ensures Pending(stack + [Frame([], p)] + tail, m) == Pending(stack + tail, m)
    decreases |tail|
  {
    var more := stack + [Frame([], p)];
    if tail == [] {
      assert more + tail == more && stack + tail == stack;
      PendingPush(stack, Frame([], p), m);
    } else {
      var init, last := tail[..|tail| - 1], tail[|tail| - 1];
      PendingInside(stack, p, init, m);
      assert more + tail == (more + init) + [last] && stack + tail == (stack + init) + [last];
      PendingPush(more + init, last, m);
      PendingPush(stack + init, last, m);
    }
  }

  /** The inner loop: follows first children and skipped siblings until there is nothing to follow. */
  method Descend(stack0: seq<Frame>, cur0: seq<Src>, parent0: OutNode, ghost repr: set<OutNode>, ghost a: Ages,
                 ghost root: OutNode, ghost goal: Out)
    returns (stack: seq<Frame>, ghost now: set<OutNode>, ghost b: Ages)
    requires Walking(repr, a, stack0 + [Frame(cur0, parent0)], root, goal) && parent0 in repr
    modifies repr
    ensures Walking(now, b, stack, root, goal) && repr <= now && fresh(now - repr)
    ensures Weight(stack) <= Weight(stack0) + Size(cur0) && (cur0 != [] ==> Weight(stack) < Weight(stack0) + Size(cur0))
    ensures cur0 == [] ==> stack == stack0
  {
    var cur, parent := cur0, parent0;
    stack, now, b := stack0, repr, a;
    while cur != []
      invariant repr <= now && fresh(now - repr) && parent in now
      invariant Walking(now, b, stack + [Frame(cur, parent)], root, goal)
      invariant Weight(stack) + Size(cur) <= Weight(stack0) + Size(cur0)
      invariant cur0 == [] ==> stack == stack0
      invariant cur == cur0 || Weight(stack) + Size(cur) < Weight(stack0) + Size(cur0)
      decreases Weight(stack) + Size(cur)
    {
      var s, rest := cur[0], cur[1..];
      assert cur == [s] + rest;
      var converted := Convert(s);
      if converted.Some? {
        stack, cur, parent, now, b := ConvertOne(stack, s, rest, parent, converted.value, now, b, root, goal);
      } else {
        SkipKeeps(now, b, stack, s, rest, parent, root, goal);
        cur := rest;
      }
    }
    EmptyFrame(now, b, stack, parent, root, goal);
  }

  /** lxb_walk_into, on a root that was just made: what it builds is what structural recursion builds, and the
      content of a template at the root comes before the root's own children. */
  method WalkInto(src: Src, root: OutNode) returns (ghost repr: set<OutNode>, ghost a: Ages)
    requires root.children == [] && root.content == null
    modifies root
    ensures root in repr && fresh(repr - {root}) && Wf(HeapOf(repr), a)
    ensures Shape(HeapOf(repr), a, root) == Out(root.tag, BuildAll(TemplateKids(src)) + BuildAll(src.children), None)
  {
    repr, a := {root}, Ages(map[root := 0], 1);
    ghost var goal := Out(root.tag, BuildAll(TemplateKids(src)) + BuildAll(src.children), None);
    var stack: seq<Frame> := [];
    if src.children != [] { stack := stack + [Frame(src.children, root)]; }
    if TemplateKids(src) != [] { stack := stack + [Frame(TemplateKids(src), root)]; }
    StartsAs(src, root, stack, goal);
    while stack != []
      invariant root in repr && fresh(repr - {root}) && Walking(repr, a, stack, root, goal)
      decreases Weight(stack), |stack|
    {
      var top := stack[|stack| - 1];
      var below := stack[..|stack| - 1];
      assert stack == below + [top];
      WeightPush(below, top);
      stack, repr, a := Descend(below, top.rest, top.parent, repr, a, root, goal);
    }
    OpenWalk(repr, a, [], root, goal);
  }

  lemma StartsAs(src: Src, root: OutNode, stack: seq<Frame>, goal: Out)
    requires root.children == [] && root.content == null
    requires goal == Out(root.tag, BuildAll(TemplateKids(src)) + BuildAll(src.children), None)
    requires stack == (if src.children == [] then [] else [Frame(src.children, root)]) +
                      if TemplateKids(src) == [] then [] else [Frame(TemplateKids(src), root)]
    ensures Walking({root}, Ages(map[root := 0], 1), stack, root, goal)
  {
    StartPending(src, root, stack);
    assert HeapOf({root}) == map[root := Rec(root.tag, [], null)];
    LoneRoot(root, stack);
  }

  lemma LoneRoot(root: OutNode, stack: seq<Frame>)
    ensures Becomes(map[root := Rec(root.tag, [], null)], Ages(map[root := 0], 1), stack, root,
                    Out(root.tag, Pending(stack, root), None))
  {
    var h, a := map[root := Rec(root.tag, [], null)], Ages(map[root := 0], 1);
    assert NodeWf(h, a, root);
    assert CompletedKids(h, a, stack, root) == [];
  }

  lemma StartPending(src: Src, root: OutNode, stack: seq<Frame>)
    requires stack == (if src.children == [] then [] else [Frame(src.children, root)]) +
                      if TemplateKids(src) == [] then [] else [Frame(TemplateKids(src), root)]
    ensures Pending(stack, root) == BuildAll(TemplateKids(src)) + BuildAll(src.children)
  {
    var base: seq<Frame> := if src.children == [] then [] else [Frame(src.children, root)];
    PendingPush([], Frame(src.children, root), root);
    PendingPush(base, Frame(TemplateKids(src), root), root);
    assert [] + [Frame(src.children, root)] == [Frame(src.children, root)];
    assert Pending(base, root) == BuildAll(src.children);
    if TemplateKids(src) == [] { assert stack == base; }
  }
}
