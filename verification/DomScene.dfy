/**
 What the indexes read from the tree: the class tokens, the lower-case tag and the id of every node, and
 the link pointers.
 */
module DomScene {
  import opened Common
  import opened Locks
  import opened DomForest
  import opened DomTree

  /** `s[i..j]` is a longest run of characters other than white space. */
  ghost predicate IsToken(s: string, i: nat, j: nat) {
    && i < j <= |s|
    && (forall k :: i <= k < j ==> !IsSpace(s[k]))
    && (i == 0 || IsSpace(s[i - 1]))
    && (j == |s| || IsSpace(s[j]))
  }

  ghost function TokensUpTo(s: string, p: nat): set<string>
    requires p <= |s|
  {
    set i: nat, j: nat | 0 <= i < j <= p && IsToken(s, i, j) :: s[i..j]
  }

  ghost function Tokens(s: string): set<string> {
    TokensUpTo(s, |s|)
  }

  lemma NextToken(s: string, p: nat, i: nat, j: nat)
    requires p <= i < j <= |s| && IsToken(s, i, j)
    requires p == 0 || IsSpace(s[p])
    requires forall k :: p <= k < i ==> IsSpace(s[k])
    ensures TokensUpTo(s, j) == TokensUpTo(s, p) + {s[i..j]}
  {
    forall a: nat, b: nat | a < b <= j && IsToken(s, a, b) ensures b <= p || (a == i && b == j) {
      if b > p {
        assert !IsSpace(s[b - 1]);
        assert i == 0 || IsSpace(s[i - 1]);
        assert a == 0 || IsSpace(s[a - 1]);
      }
    }
    forall t | t in TokensUpTo(s, j) ensures t in TokensUpTo(s, p) + {s[i..j]} {
      var a: nat, b: nat :| a < b <= j && IsToken(s, a, b) && t == s[a..b];
    }
  }

  lemma NoMoreTokens(s: string, p: nat)
    requires p <= |s| && (p == 0 || p == |s| || IsSpace(s[p]))
    requires forall k :: p <= k < |s| ==> IsSpace(s[k])
    ensures Tokens(s) == TokensUpTo(s, p)
  {
    forall t | t in Tokens(s) ensures t in TokensUpTo(s, p) {
      var a: nat, b: nat :| a < b <= |s| && IsToken(s, a, b) && t == s[a..b];
      assert !IsSpace(s[b - 1]);
      assert b <= p;
    }
  }

  /** ns_str_is_ascii_lower */
  predicate IsAsciiLower(s: string) {
    forall i :: 0 <= i < |s| ==> !('A' <= s[i] <= 'Z')
  }

  datatype Which = ByClass | ByTag

  type Keys = map<Node, set<string>>

  type Ids = map<Node, Option<string>>

  /** The keys under which an index files a node with the class attribute `cls`. */
  ghost function NodeKeys(which: Which, n: Node, cls: Option<string>): set<string> {
    if n.kind != Element then {}
    else match which
      case ByClass => if cls.Some? then Tokens(cls.value) else {}
      case ByTag => if n.name == "" then {} else {Lower(n.name)}
  }

  /** The id of an element that has one; the empty id does not count. */
  function NodeId(n: Node, id: Option<string>): Option<string> {
    if n.kind == Element && id.Some? && id.value != "" then id else None
  }

  /** What the three indexes see of every node. */
  datatype Views = Views(classes: Keys, tags: Keys, ids: Ids)

  function KeysFor(which: Which, v: Views): Keys {
    match which
    case ByClass => v.classes
    case ByTag => v.tags
  }

  ghost predicate Sees(a: Attrs, v: Views) {
    && v.classes.Keys == a.cls.Keys && v.tags.Keys == a.cls.Keys && v.ids.Keys == a.id.Keys
    && (forall n {:trigger v.classes[n]} :: n in a.cls ==> v.classes[n] == NodeKeys(ByClass, n, a.cls[n]))
    && (forall n {:trigger v.tags[n]} :: n in a.cls ==> v.tags[n] == NodeKeys(ByTag, n, a.cls[n]))
    && (forall n {:trigger v.ids[n]} :: n in a.id ==> v.ids[n] == NodeId(n, a.id[n]))
  }

  /** The tree as the index code finds it: the links encode `f`, and `v` is what the indexes see. */
  ghost predicate Scene(f: Forest, v: Views)
    reads f.kids.Keys`parent, f.kids.Keys`firstChild, f.kids.Keys`lastChild
    reads f.kids.Keys`prevSibling, f.kids.Keys`nextSibling, f.kids.Keys`classAttr, f.kids.Keys`idAttr
  {
    && Linked(f) && v.classes.Keys == f.kids.Keys && v.tags.Keys == f.kids.Keys && v.ids.Keys == f.kids.Keys
    && forall key {:trigger Open(key)} :: Key(key) ==> Sees(AttrsOf(f.kids.Keys), v)
  }

  lemma OpenScene(f: Forest, v: Views)
    requires Scene(f, v)
    ensures Sees(AttrsOf(f.kids.Keys), v)
  {
    assert Open(true);
  }

  lemma NodeView(f: Forest, v: Views, n: Node)
    requires Scene(f, v) && n in f.kids
    ensures n in v.classes && v.classes[n] == NodeKeys(ByClass, n, n.classAttr)
    ensures n in v.tags && v.tags[n] == NodeKeys(ByTag, n, n.classAttr)
    ensures n in v.ids && v.ids[n] == NodeId(n, n.idAttr)
  {
    assert Open(true);
  }
}
