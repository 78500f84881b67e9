/**
 * The parsed layout document as libxml2 presents it: every node has a type, a name,
 * attributes and an ordered list of children. The program only walks sibling lists,
 * so the model is a tree of values.
 */
module Xml {
  import opened Wrappers

  /** libxml2's node types; only the distinction element / not element is ever tested. */
  datatype Kind = Element | Text | Comment | OtherKind

  /**
   * An attribute value: `text` is what `xmlGetProp` returns and `number` is the value
   * that `atoi` gives for that text (the conversion itself is not part of this model).
   */
  datatype Attr = Attr(text: string, number: int)

  datatype Node = Node(kind: Kind, name: string, attrs: map<string, Attr>, children: seq<Node>)

  predicate IsElementNamed(n: Node, name: string)
  {
    n.kind == Element && n.name == name
  }

  /**
   * `findNextChild`: the position of the first node at or after `start` that is an
   * element called `name`; `|siblings|` plays the part of `nullptr`.
   */
  method FindNextChild(siblings: seq<Node>, start: nat, name: string) returns (i: nat)
    requires start <= |siblings|
    ensures start <= i <= |siblings|
    ensures i < |siblings| ==> IsElementNamed(siblings[i], name)
    ensures forall j :: start <= j < i ==> !IsElementNamed(siblings[j], name)
  {
    i := start;
    while i < |siblings| && !IsElementNamed(siblings[i], name)
      invariant start <= i <= |siblings|
      invariant forall j :: start <= j < i ==> !IsElementNamed(siblings[j], name)
    {
      i := i + 1;
    }
  }

  /** The attribute tests the lookups apply: `ATTR_IS` on text, `atoi(...) == n` on numbers. */
  datatype Test = TextIs(attr: string, text: string) | NumberIs(attr: string, number: int)

  /** A node without the tested attribute never passes the test. */
  predicate Passes(n: Node, t: Test)
  {
    match t
    case TextIs(a, s) => a in n.attrs && n.attrs[a].text == s
    case NumberIs(a, v) => a in n.attrs && n.attrs[a].number == v
  }

  predicate Matches(n: Node, name: string, t: Test)
  {
    IsElementNamed(n, name) && Passes(n, t)
  }

  /** The first element called `name` among `siblings` that passes `t`. */
  function Lookup(siblings: seq<Node>, name: string, t: Test): Option<Node>
  {
    if |siblings| == 0 then None
    else if Matches(siblings[0], name, t) then Some(siblings[0])
    else Lookup(siblings[1..], name, t)
  }

  /** Lookup finds exactly the first match, and finds nothing only when nothing matches. */
  lemma {:induction false} LookupIsFirstMatch(siblings: seq<Node>, name: string, t: Test)
    ensures Lookup(siblings, name, t).None? <==>
              forall j :: 0 <= j < |siblings| ==> !Matches(siblings[j], name, t)
    ensures Lookup(siblings, name, t).Some? ==>
              exists i :: 0 <= i < |siblings| && siblings[i] == Lookup(siblings, name, t).value
                && Matches(siblings[i], name, t)
                && forall j :: 0 <= j < i ==> !Matches(siblings[j], name, t)
  {
    if |siblings| > 0 && !Matches(siblings[0], name, t) {
      var rest := siblings[1..];
      LookupIsFirstMatch(rest, name, t);
      if Lookup(rest, name, t).Some? {
        var i :| 0 <= i < |rest| && rest[i] == Lookup(rest, name, t).value
                 && Matches(rest[i], name, t)
                 && forall j :: 0 <= j < i ==> !Matches(rest[j], name, t);
        assert siblings[i + 1] == rest[i];
        assert forall j :: 0 <= j < i + 1 ==> !Matches(siblings[j], name, t) by {
          forall j | 0 <= j < i + 1 ensures !Matches(siblings[j], name, t) {
            if j > 0 { assert siblings[j] == rest[j - 1]; }
          }
        }
      } else {
        forall j | 0 <= j < |siblings| ensures !Matches(siblings[j], name, t) {
          if j > 0 { assert siblings[j] == rest[j - 1]; }
        }
      }
    }
  }

  /** Nodes that are not elements called `name` are passed over by the lookup. */
  lemma {:induction false} LookupSkips(siblings: seq<Node>, lo: nat, hi: nat, name: string, t: Test)
    requires lo <= hi <= |siblings|
    requires forall j :: lo <= j < hi ==> !IsElementNamed(siblings[j], name)
    ensures Lookup(siblings[lo..], name, t) == Lookup(siblings[hi..], name, t)
    decreases hi - lo
  {
    if lo < hi {
      assert siblings[lo..][1..] == siblings[lo + 1..];
      LookupSkips(siblings, lo + 1, hi, name, t);
    }
  }

  /** Whatever follows the first match is never consulted. */
  lemma {:induction false} LookupIgnoresLater(siblings: seq<Node>, later: seq<Node>, name: string, t: Test)
    requires Lookup(siblings, name, t).Some?
    ensures Lookup(siblings + later, name, t) == Lookup(siblings, name, t)
  {
    assert (siblings + later)[0] == siblings[0];
    if !Matches(siblings[0], name, t) {
      assert (siblings + later)[1..] == siblings[1..] + later;
      LookupIgnoresLater(siblings[1..], later, name, t);
    }
  }

  /**
   * Inserting a node at position `p` changes no lookup when an earlier node already
   * matches, or when the inserted node does not match itself.
   */
  lemma {:induction false} LookupInsert(siblings: seq<Node>, p: nat, d: Node, name: string, t: Test)
    requires p <= |siblings|
    requires Lookup(siblings[..p], name, t).Some? || !Matches(d, name, t)
    ensures Lookup(siblings[..p] + [d] + siblings[p..], name, t) == Lookup(siblings, name, t)
  {
    var s' := siblings[..p] + [d] + siblings[p..];
    if p == 0 {
      assert s'[0] == d;
      assert s'[1..] == siblings;
    } else {
      assert s'[0] == siblings[0];
      if !Matches(siblings[0], name, t) {
        assert siblings[..p][1..] == siblings[1..][..p - 1];
        assert s'[1..] == siblings[1..][..p - 1] + [d] + siblings[1..][p - 1..];
        LookupInsert(siblings[1..], p - 1, d, name, t);
      }
    }
  }

  /**
   * `ITERATE_CHILDREN(node, var, name)` whose body starts with `if (!test) continue;`
   * and leaves the loop once a node passes: the first element called `name` passing `t`.
   */
  method FindFirst(siblings: seq<Node>, name: string, t: Test) returns (r: Option<Node>)
    ensures r == Lookup(siblings, name, t)
  {
    var i := FindNextChild(siblings, 0, name);
    LookupSkips(siblings, 0, i, name, t);
    while i < |siblings|
      invariant i <= |siblings|
      invariant i < |siblings| ==> IsElementNamed(siblings[i], name)
      invariant Lookup(siblings[i..], name, t) == Lookup(siblings, name, t)
      decreases |siblings| - i
    {
      if Passes(siblings[i], t) {
        return Some(siblings[i]);
      }
      assert siblings[i..][1..] == siblings[i + 1..];
      var next := FindNextChild(siblings, i + 1, name);
      LookupSkips(siblings, i + 1, next, name, t);
      i := next;
    }
    return None;
  }
}
