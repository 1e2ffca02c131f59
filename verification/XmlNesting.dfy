/**
 What the tag checker of src/html_lexbor.c accepts, told by trees: markup in which every element is closed by an end
 tag of its own name, or is empty, and which has exactly one element at the top.
 */
module XmlNesting {
  import opened Common
  import opened XmlTokens

  datatype Tree = Aside(t: Token) | Leaf(name: string, body: string) | Branch(name: string, body: string, kids: seq<Tree>)

  /** Text, comments and the like, which belong to no tag */
  predicate IsAside(t: Token) {
    !t.Open? && !t.Close? && !t.Empty?
  }

  predicate ProperTree(t: Tree)
    decreases t, 0
  {
    match t
    case Aside(token) => IsAside(token)
    case Leaf(_, _) => true
    case Branch(_, _, kids) => Proper(kids)
  }

  predicate Proper(trees: seq<Tree>)
    decreases trees, 1
  {
    forall i :: 0 <= i < |trees| ==> ProperTree(trees[i])
  }

  function FlatTree(t: Tree): seq<Token>
    decreases t, 0
  {
    match t
    case Aside(token) => [token]
    case Leaf(name, body) => [Empty(name, body)]
    case Branch(name, body, kids) => [Open(name, body)] + Flat(kids) + [Close(name)]
  }

  function Flat(trees: seq<Tree>): seq<Token>
    decreases trees, 1
  {
    if trees == [] then [] else Flat(trees[..|trees| - 1]) + FlatTree(trees[|trees| - 1])
  }

  function Elements(trees: seq<Tree>): nat {
    if trees == [] then 0 else Elements(trees[..|trees| - 1]) + if trees[|trees| - 1].Aside? then 0 else 1
  }

  lemma FlatMore(trees: seq<Tree>, t: Tree)
    ensures Flat(trees + [t]) == Flat(trees) + FlatTree(t)
    ensures Elements(trees + [t]) == Elements(trees) + if t.Aside? then 0 else 1
  {
    assert (trees + [t])[..|trees|] == trees;
  }

  // ---------- trees are accepted ----------

  lemma RunOne(t: Token, st: State)
    ensures Run([t], st) == Step(t, st)
  {
    assert [t][1..] == [];
  }

  lemma {:induction false} InnerRuns(trees: seq<Tree>, st: State)
    requires Proper(trees) && st.stack != [] && st.seen && !st.closed
    ensures Run(Flat(trees), st) == Some(st)
    decreases trees, 0
  {
    if trees != [] {
      var init, last := trees[..|trees| - 1], trees[|trees| - 1];
      assert forall i :: 0 <= i < |init| ==> init[i] == trees[i];
      InnerRuns(init, st);
      RunConcat(Flat(init), FlatTree(last), st);
      match last
      case Aside(t) => RunOne(t, st);
      case Leaf(name, body) => RunOne(Empty(name, body), st);
      case Branch(name, body, kids) => BranchRuns(name, body, kids, st);
    }
  }

  /** An element with content, where one may stand */
  lemma {:induction false} BranchRuns(name: string, body: string, kids: seq<Tree>, st: State)
    requires Proper(kids) && !st.closed
    ensures Run([Open(name, body)] + Flat(kids) + [Close(name)], st) == Some(State(st.stack, true, st.stack == []))
    decreases kids, 1
  {
    var inner := State(st.stack + [name], true, false);
    RunConcat([Open(name, body)] + Flat(kids), [Close(name)], st);
    RunConcat([Open(name, body)], Flat(kids), st);
    RunOne(Open(name, body), st);
    InnerRuns(kids, inner);
    RunOne(Close(name), inner);
    assert inner.stack[..|inner.stack| - 1] == st.stack;
  }

  /** At the top one element may stand, and after it no other. */
  lemma {:induction false} TopRuns(trees: seq<Tree>)
    requires Proper(trees) && Elements(trees) <= 1
    ensures Run(Flat(trees), START) == Some(State([], Elements(trees) == 1, Elements(trees) == 1))
    decreases |trees|
  {
    if trees != [] {
      var init, last := trees[..|trees| - 1], trees[|trees| - 1];
      assert forall i :: 0 <= i < |init| ==> init[i] == trees[i];
      TopRuns(init);
      var st := State([], Elements(init) == 1, Elements(init) == 1);
      RunConcat(Flat(init), FlatTree(last), START);
      match last
      case Aside(t) => RunOne(t, st);
      case Leaf(name, body) => RunOne(Empty(name, body), st);
      case Branch(name, body, kids) => BranchRuns(name, body, kids, st);
    }
  }

  // ---------- and nothing else ----------

  /** An element that is still open, and what stands before it at its level */
  datatype Frame = Frame(before: seq<Tree>, name: string, body: string)

  function Names(frames: seq<Frame>): seq<string> {
    seq(|frames|, i requires 0 <= i < |frames| => frames[i].name)
  }

  function FlatFrames(frames: seq<Frame>, here: seq<Tree>): seq<Token>
    decreases |frames|
  {
    if frames == [] then Flat(here)
    else
      var f := frames[|frames| - 1];
      FlatFrames(frames[..|frames| - 1], f.before) + ([Open(f.name, f.body)] + Flat(here))
  }

  function Top(frames: seq<Frame>, here: seq<Tree>): seq<Tree> {
    if frames == [] then here else frames[0].before
  }

  /** What has been read so far, as frames, and what the checker knows of it */
  ghost predicate Reads(frames: seq<Frame>, here: seq<Tree>, st: State) {
    && Proper(here) && (forall i :: 0 <= i < |frames| ==> Proper(frames[i].before)) && st.stack == Names(frames)
    && Elements(Top(frames, here)) == (if st.closed then 1 else 0) && (st.seen <==> st.closed || frames != [])
    && (frames != [] ==> !st.closed)
  }

  /** A tree more at the innermost level */
  lemma Longer(frames: seq<Frame>, here: seq<Tree>, st: State, t: Tree, after: State)
    requires Reads(frames, here, st) && ProperTree(t)
    requires after == if frames != [] || t.Aside? then st else State(st.stack, true, true)
    requires frames == [] && !t.Aside? ==> !st.closed
    ensures Reads(frames, here + [t], after) && FlatFrames(frames, here + [t]) == FlatFrames(frames, here) + FlatTree(t)
  {
    FlatMore(here, t);
    if frames != [] {
      var f := frames[|frames| - 1];
      Regroup(FlatFrames(frames[..|frames| - 1], f.before), [Open(f.name, f.body)], Flat(here), FlatTree(t));
    }
  }

  lemma Regroup(a: seq<Token>, b: seq<Token>, c: seq<Token>, d: seq<Token>)
    ensures a + (b + (c + d)) == a + (b + c) + d && a + (b + c) + d == a + (b + c + d)
  {
  }

  lemma Opening(frames: seq<Frame>, here: seq<Tree>, st: State, name: string, body: string)
    requires Reads(frames, here, st) && !st.closed
    ensures Reads(frames + [Frame(here, name, body)], [], State(st.stack + [name], true, false))
    ensures FlatFrames(frames + [Frame(here, name, body)], []) == FlatFrames(frames, here) + [Open(name, body)]
  {
    var f := Frame(here, name, body);
    var more := frames + [f];
    assert Names(more) == Names(frames) + [name];
    assert more[..|frames|] == frames && more[|frames|] == f;
    assert [Open(name, body)] + Flat([]) == [Open(name, body)];
  }

  lemma Closing(frames: seq<Frame>, here: seq<Tree>, st: State, after: State)
    requires Reads(frames, here, st) && frames != [] && Closed(st, frames[|frames| - 1].name) == Some(after)
    ensures var f, outer := frames[|frames| - 1], frames[..|frames| - 1];
            var t := Branch(f.name, f.body, here);
            Reads(outer, f.before + [t], after) &&
            FlatFrames(outer, f.before + [t]) == FlatFrames(frames, here) + [Close(f.name)]
  {
    var f, outer := frames[|frames| - 1], frames[..|frames| - 1];
    var t := Branch(f.name, f.body, here);
    var before := State(Names(outer), outer != [], false);
    assert st.stack[..|st.stack| - 1] == Names(outer);
    assert Reads(outer, f.before, before);
    Longer(outer, f.before, before, t, after);
    var a, b, c, d := FlatFrames(outer, f.before), [Open(f.name, f.body)], Flat(here), [Close(f.name)];
    Regroup(a, b, c, d);
  }

  /** One token more */
  lemma Reading(frames: seq<Frame>, here: seq<Tree>, st: State, t: Token) returns (next: seq<Frame>, there: seq<Tree>)
    requires Reads(frames, here, st) && Step(t, st).Some?
    ensures Reads(next, there, Step(t, st).value) && FlatFrames(next, there) == FlatFrames(frames, here) + [t]
  {
    match t
    case Open(name, body) =>
      Opening(frames, here, st, name, body);
      next, there := frames + [Frame(here, name, body)], [];
    case Close(name) =>
      assert st.stack[|st.stack| - 1] == Names(frames)[|frames| - 1] == frames[|frames| - 1].name;
      Closing(frames, here, st, Step(t, st).value);
      next, there := frames[..|frames| - 1], frames[|frames| - 1].before + [Branch(name, frames[|frames| - 1].body, here)];
    case Empty(name, body) =>
      Longer(frames, here, st, Leaf(name, body), Step(t, st).value);
      next, there := frames, here + [Leaf(name, body)];
    case _ =>
      Longer(frames, here, st, Aside(t), st);
      next, there := frames, here + [Aside(t)];
  }

  lemma {:induction false} ReadTokens(ts: seq<Token>, frames: seq<Frame>, here: seq<Tree>, st: State) returns (trees: seq<Tree>)
    requires Reads(frames, here, st) && Run(ts, st).Some? && Accepts(Run(ts, st).value)
    ensures Proper(trees) && Elements(trees) == 1 && Flat(trees) == FlatFrames(frames, here) + ts
    decreases ts
  {
    if ts == [] {
      trees := here;
      assert frames == [] by { assert |Names(frames)| == |frames|; }
      assert FlatFrames(frames, here) + [] == FlatFrames(frames, here);
    } else {
      var next, there := Reading(frames, here, st, ts[0]);
      trees := ReadTokens(ts[1..], next, there, Step(ts[0], st).value);
      assert FlatFrames(frames, here) + [ts[0]] + ts[1..] == FlatFrames(frames, here) + ts;
    }
  }

  /** These are the tokens of a list of trees of which one is an element. */
  ghost predicate IsDocument(ts: seq<Token>) {
    exists trees :: Proper(trees) && Elements(trees) == 1 && Flat(trees) == ts
  }

  /** The checker accepts exactly the texts of documents. */
  lemma AcceptsDocuments(ts: seq<Token>)
    requires forall i :: 0 <= i < |ts| ==> Legal(ts[i])
    ensures Check(Text(ts), START) <==> IsDocument(ts)
  {
    CheckIsRun(ts, START);
    if Run(ts, START).Some? && Accepts(Run(ts, START).value) {
      assert Names([]) == [];
      var trees := ReadTokens(ts, [], [], START);
      assert FlatFrames([], []) + ts == ts;
    }
    if IsDocument(ts) {
      var trees :| Proper(trees) && Elements(trees) == 1 && Flat(trees) == ts;
      TopRuns(trees);
    }
  }
}
