/**
 * `keyOutput`: what a physical key produces in a given key-map set and layer of an
 * Apple keyboard layout, with the state fixed to "none".
 */
module KeyLayout {
  import opened Wrappers
  import opened Xml

  /** The program's `uint8_t`. */
  type uint8 = x: int | 0 <= x < 256

  /** The only state the program resolves keys in. */
  const UsedState := "none"

  /** The root `keyboard` element and the `actions` element below it. */
  datatype Layout = Layout(keyboard: Node, actions: Node)

  /**
   * `Output` is a non-null result and `NoOutput` is `nullptr`; `TooDeep` means the
   * chain of base maps is longer than the fuel given, where the program would go on
   * recursing.
   */
  datatype Outcome = Output(text: string) | NoOutput | TooDeep

  /** What the key with a given code is bound to within one key map. */
  datatype Binding = Literal(text: string) | ActionRef(id: string) | Unbound

  /** The `baseMapSet` and `baseIndex` attributes of a key map, the index cut to `uint8_t`. */
  datatype BaseRef = BaseRef(mapSet: string, index: uint8)

  /** The first key map with index `mapIndex` in the first key-map set called `mapName`. */
  function FindKeyMap(layout: Layout, mapName: string, mapIndex: uint8): Option<Node>
  {
    match Lookup(layout.keyboard.children, "keyMapSet", TextIs("id", mapName))
    case None => None
    case Some(keyMapSet) => Lookup(keyMapSet.children, "keyMap", NumberIs("index", mapIndex))
  }

  /** The first key with the code: its `output` if it has one, otherwise its `action`. */
  function KeyBinding(keyMap: Node, keyCode: uint8): Binding
  {
    match Lookup(keyMap.children, "key", NumberIs("code", keyCode))
    case None => Unbound
    case Some(key) =>
      if "output" in key.attrs then Literal(key.attrs["output"].text)
      else if "action" in key.attrs then ActionRef(key.attrs["action"].text)
      else Unbound
  }

  /**
   * The output of the first `when` in state "none" of the first action called `id`.
   * Resolution ends here whatever the action holds: the base map is not consulted.
   */
  function ActionOutput(actions: Node, id: string): (r: Outcome)
    ensures r != TooDeep
    ensures r.Output? ==> exists action, rule ::
              Lookup(actions.children, "action", TextIs("id", id)) == Some(action)
              && Lookup(action.children, "when", TextIs("state", UsedState)) == Some(rule)
              && "output" in rule.attrs && rule.attrs["output"].text == r.text
    ensures (exists action, rule ::
               Lookup(actions.children, "action", TextIs("id", id)) == Some(action)
               && Lookup(action.children, "when", TextIs("state", UsedState)) == Some(rule)
               && "output" in rule.attrs) ==> r.Output?
  {
    match Lookup(actions.children, "action", TextIs("id", id))
    case None => NoOutput
    case Some(action) =>
      match Lookup(action.children, "when", TextIs("state", UsedState))
      case None => NoOutput
      case Some(rule) => if "output" in rule.attrs then Output(rule.attrs["output"].text) else NoOutput
  }

  /** The fallback a key map declares; without `baseIndex` there is none. */
  function BaseOf(keyMap: Node): Option<BaseRef>
  {
    if "baseMapSet" in keyMap.attrs && "baseIndex" in keyMap.attrs
    then Some(BaseRef(keyMap.attrs["baseMapSet"].text, keyMap.attrs["baseIndex"].number % 256))
    else None
  }

  /** `keyOutput(keyCode, mapName, mapIndex)`, allowed `fuel` fallbacks to base maps. */
  function Resolve(layout: Layout, keyCode: uint8, mapName: string, mapIndex: uint8, fuel: nat): Outcome
    decreases fuel
  {
    match FindKeyMap(layout, mapName, mapIndex)
    case None => NoOutput
    case Some(keyMap) =>
      match KeyBinding(keyMap, keyCode)
      case Literal(text) => Output(text)
      case ActionRef(id) => ActionOutput(layout.actions, id)
      case Unbound =>
        match BaseOf(keyMap)
        case None => NoOutput
        case Some(base) =>
          if fuel == 0 then TooDeep else Resolve(layout, keyCode, base.mapSet, base.index, fuel - 1)
  }

  /**
   * The program's `keyOutput`: three nested first-match searches (key-map set, key map,
   * key), then the action search, then the tail call for the base map.
   */
  method KeyOutput(layout: Layout, keyCode: uint8, mapName: string, mapIndex: uint8, fuel: nat)
    returns (r: Outcome)
    ensures r == Resolve(layout, keyCode, mapName, mapIndex, fuel)
    decreases fuel
  {
    var keyAction: Option<string> := None;
    var foundKeyMap: Option<Node> := None;
    var keyMapSet := FindFirst(layout.keyboard.children, "keyMapSet", TextIs("id", mapName));
    if keyMapSet.Some? {
      var keyMap := FindFirst(keyMapSet.value.children, "keyMap", NumberIs("index", mapIndex));
      if keyMap.Some? {
        foundKeyMap := keyMap;
        var key := FindFirst(keyMap.value.children, "key", NumberIs("code", keyCode));
        if key.Some? {
          if "output" in key.value.attrs {
            return Output(key.value.attrs["output"].text);
          }
          if "action" in key.value.attrs {
            keyAction := Some(key.value.attrs["action"].text);
          }
        }
      }
    }
    if keyAction.Some? {
      var action := FindFirst(layout.actions.children, "action", TextIs("id", keyAction.value));
      if action.Some? {
        var rule := FindFirst(action.value.children, "when", TextIs("state", UsedState));
        if rule.Some? && "output" in rule.value.attrs {
          return Output(rule.value.attrs["output"].text);
        }
      }
    } else if foundKeyMap.Some? {
      var attrs := foundKeyMap.value.attrs;
      if "baseMapSet" in attrs && "baseIndex" in attrs {
        if fuel == 0 {
          return TooDeep;
        }
        var baseIndex: uint8 := attrs["baseIndex"].number % 256;
        r := KeyOutput(layout, keyCode, attrs["baseMapSet"].text, baseIndex, fuel - 1);
        return;
      }
    }
    return NoOutput;
  }

  // Properties of the resolution

  /** No key-map set with the id, or no key map with the index in it: null. */
  lemma NoKeyMapNoOutput(layout: Layout, keyCode: uint8, mapName: string, mapIndex: uint8, fuel: nat)
    requires FindKeyMap(layout, mapName, mapIndex).None?
    ensures Resolve(layout, keyCode, mapName, mapIndex, fuel) == NoOutput
  {
  }

  /** A direct `output` attribute is returned as it is, whatever the fuel. */
  lemma DirectOutputWins(layout: Layout, keyCode: uint8, mapName: string, mapIndex: uint8, fuel: nat,
                         keyMap: Node, key: Node)
    requires FindKeyMap(layout, mapName, mapIndex) == Some(keyMap)
    requires Lookup(keyMap.children, "key", NumberIs("code", keyCode)) == Some(key)
    requires "output" in key.attrs
    ensures Resolve(layout, keyCode, mapName, mapIndex, fuel) == Output(key.attrs["output"].text)
  {
  }

  /** A key with an `action` and no `output` is resolved by the action alone. */
  lemma ActionDecides(layout: Layout, keyCode: uint8, mapName: string, mapIndex: uint8, fuel: nat,
                      keyMap: Node, key: Node)
    requires FindKeyMap(layout, mapName, mapIndex) == Some(keyMap)
    requires Lookup(keyMap.children, "key", NumberIs("code", keyCode)) == Some(key)
    requires "output" !in key.attrs && "action" in key.attrs
    ensures Resolve(layout, keyCode, mapName, mapIndex, fuel)
            == ActionOutput(layout.actions, key.attrs["action"].text)
  {
  }

  /**
   * A found key map without a usable binding for the code defers to its base map,
   * using one unit of fuel; without a base it gives null.
   */
  lemma FallbackToBase(layout: Layout, keyCode: uint8, mapName: string, mapIndex: uint8, fuel: nat,
                       keyMap: Node)
    requires FindKeyMap(layout, mapName, mapIndex) == Some(keyMap)
    requires KeyBinding(keyMap, keyCode) == Unbound
    ensures BaseOf(keyMap).None? ==> Resolve(layout, keyCode, mapName, mapIndex, fuel) == NoOutput
    ensures BaseOf(keyMap).Some? ==>
              Resolve(layout, keyCode, mapName, mapIndex, fuel + 1)
              == Resolve(layout, keyCode, BaseOf(keyMap).value.mapSet, BaseOf(keyMap).value.index, fuel)
    ensures BaseOf(keyMap).Some? ==> Resolve(layout, keyCode, mapName, mapIndex, 0) == TooDeep
  {
  }

  /**
   * The fuel only bounds the search: once a resolution finishes, more fuel gives the
   * same answer.
   */
  lemma {:induction false} FuelMonotone(layout: Layout, keyCode: uint8, mapName: string, mapIndex: uint8,
                                         fuel: nat, more: nat)
    requires fuel <= more
    requires Resolve(layout, keyCode, mapName, mapIndex, fuel) != TooDeep
    ensures Resolve(layout, keyCode, mapName, mapIndex, more) == Resolve(layout, keyCode, mapName, mapIndex, fuel)
    decreases fuel
  {
    match FindKeyMap(layout, mapName, mapIndex)
    case None =>
    case Some(keyMap) =>
      if KeyBinding(keyMap, keyCode).Unbound? && BaseOf(keyMap).Some? {
        var base := BaseOf(keyMap).value;
        FuelMonotone(layout, keyCode, base.mapSet, base.index, fuel - 1, more - 1);
      }
  }

  /**
   * A second key-map set with an id that an earlier set already has never changes any
   * resolution, not even through base maps that name that id.
   */
  lemma {:induction false} DuplicateMapSetIgnored(layout: Layout, p: nat, dup: Node,
                                                  keyCode: uint8, mapName: string, mapIndex: uint8, fuel: nat)
    requires p <= |layout.keyboard.children|
    requires "id" in dup.attrs
    requires Lookup(layout.keyboard.children[..p], "keyMapSet", TextIs("id", dup.attrs["id"].text)).Some?
    ensures var sets := layout.keyboard.children;
            var layout' := layout.(keyboard := layout.keyboard.(children := sets[..p] + [dup] + sets[p..]));
            Resolve(layout', keyCode, mapName, mapIndex, fuel) == Resolve(layout, keyCode, mapName, mapIndex, fuel)
    decreases fuel
  {
    var sets := layout.keyboard.children;
    var layout' := layout.(keyboard := layout.keyboard.(children := sets[..p] + [dup] + sets[p..]));
    LookupInsert(sets, p, dup, "keyMapSet", TextIs("id", mapName));
    assert FindKeyMap(layout', mapName, mapIndex) == FindKeyMap(layout, mapName, mapIndex);
    match FindKeyMap(layout, mapName, mapIndex)
    case None =>
    case Some(keyMap) =>
      if KeyBinding(keyMap, keyCode).Unbound? && BaseOf(keyMap).Some? && fuel > 0 {
        var base := BaseOf(keyMap).value;
        DuplicateMapSetIgnored(layout, p, dup, keyCode, base.mapSet, base.index, fuel - 1);
      }
  }

  /** A later key map with the same index inside a key-map set is never chosen. */
  lemma DuplicateKeyMapIgnored(keyMapSet: Node, p: nat, dup: Node, mapIndex: uint8)
    requires p <= |keyMapSet.children|
    requires Lookup(keyMapSet.children[..p], "keyMap", NumberIs("index", mapIndex)).Some?
    ensures var keyMapSet' := keyMapSet.(children := keyMapSet.children[..p] + [dup] + keyMapSet.children[p..]);
            Lookup(keyMapSet'.children, "keyMap", NumberIs("index", mapIndex))
            == Lookup(keyMapSet.children, "keyMap", NumberIs("index", mapIndex))
  {
    LookupInsert(keyMapSet.children, p, dup, "keyMap", NumberIs("index", mapIndex));
  }

  /** A later key with the same code inside a key map never changes its binding. */
  lemma DuplicateKeyIgnored(keyMap: Node, p: nat, dup: Node, keyCode: uint8)
    requires p <= |keyMap.children|
    requires Lookup(keyMap.children[..p], "key", NumberIs("code", keyCode)).Some?
    ensures KeyBinding(keyMap.(children := keyMap.children[..p] + [dup] + keyMap.children[p..]), keyCode)
            == KeyBinding(keyMap, keyCode)
  {
    LookupInsert(keyMap.children, p, dup, "key", NumberIs("code", keyCode));
  }

  /** Two candidate key maps that resolve `keyCode` alike: both absent, or same binding and same base. */
  predicate KeyMapsAgree(a: Option<Node>, b: Option<Node>, keyCode: uint8)
  {
    && a.None? == b.None?
    && (a.Some? && b.Some? ==>
          KeyBinding(a.value, keyCode) == KeyBinding(b.value, keyCode) && BaseOf(a.value) == BaseOf(b.value))
  }

  /**
   * Resolution sees a layout only through the key maps it finds, their binding of the code,
   * their base, and the actions: layouts that agree on these resolve the code alike.
   */
  lemma {:induction false} ResolveCongruent(layout: Layout, layout': Layout, keyCode: uint8,
                                             mapName: string, mapIndex: uint8, fuel: nat)
    requires layout.actions == layout'.actions
    requires forall name: string, index: uint8 ::
               KeyMapsAgree(FindKeyMap(layout, name, index), FindKeyMap(layout', name, index), keyCode)
    ensures Resolve(layout, keyCode, mapName, mapIndex, fuel) == Resolve(layout', keyCode, mapName, mapIndex, fuel)
    decreases fuel
  {
    assert KeyMapsAgree(FindKeyMap(layout, mapName, mapIndex), FindKeyMap(layout', mapName, mapIndex), keyCode);
    match FindKeyMap(layout, mapName, mapIndex)
    case None =>
    case Some(keyMap) =>
      if KeyBinding(keyMap, keyCode).Unbound? && BaseOf(keyMap).Some? && fuel > 0 {
        var base := BaseOf(keyMap).value;
        ResolveCongruent(layout, layout', keyCode, base.mapSet, base.index, fuel - 1);
      }
  }

  /** A node standing at the same place as another and matched alike yields the same lookup, up to itself. */
  lemma {:induction false} LookupReplace(pre: seq<Node>, a: Node, b: Node, post: seq<Node>, name: string, t: Test)
    requires Matches(a, name, t) == Matches(b, name, t)
    ensures var r := Lookup(pre + [a] + post, name, t);
            var r' := Lookup(pre + [b] + post, name, t);
            r == r' || (r == Some(a) && r' == Some(b))
    decreases |pre|
  {
    var s, s' := pre + [a] + post, pre + [b] + post;
    if |pre| == 0 {
      assert s[0] == a && s'[0] == b;
      assert s[1..] == post == s'[1..];
    } else {
      assert s[0] == pre[0] == s'[0];
      assert s[1..] == pre[1..] + [a] + post;
      assert s'[1..] == pre[1..] + [b] + post;
      LookupReplace(pre[1..], a, b, post, name, t);
    }
  }

  /**
   * A key map inserted into a key-map set after an earlier key map with the same index
   * changes no resolution.
   */
  lemma DuplicateKeyMapNeverResolved(pre: seq<Node>, keyMapSet: Node, post: seq<Node>, actions: Node,
                                     p: nat, dup: Node, keyCode: uint8, mapName: string, mapIndex: uint8, fuel: nat)
    requires p <= |keyMapSet.children|
    requires "index" in dup.attrs
    requires Lookup(keyMapSet.children[..p], "keyMap", NumberIs("index", dup.attrs["index"].number)).Some?
    ensures var keyboard := Node(Element, "keyboard", map[], pre + [keyMapSet] + post);
            var keyMapSet' := keyMapSet.(children := keyMapSet.children[..p] + [dup] + keyMapSet.children[p..]);
            var keyboard' := keyboard.(children := pre + [keyMapSet'] + post);
            Resolve(Layout(keyboard', actions), keyCode, mapName, mapIndex, fuel)
            == Resolve(Layout(keyboard, actions), keyCode, mapName, mapIndex, fuel)
  {
    var keyboard := Node(Element, "keyboard", map[], pre + [keyMapSet] + post);
    var keyMapSet' := keyMapSet.(children := keyMapSet.children[..p] + [dup] + keyMapSet.children[p..]);
    var keyboard' := keyboard.(children := pre + [keyMapSet'] + post);
    var layout, layout' := Layout(keyboard, actions), Layout(keyboard', actions);
    forall name: string, index: uint8 ensures KeyMapsAgree(FindKeyMap(layout', name, index), FindKeyMap(layout, name, index), keyCode) {
      LookupReplace(pre, keyMapSet', keyMapSet, post, "keyMapSet", TextIs("id", name));
      LookupInsert(keyMapSet.children, p, dup, "keyMap", NumberIs("index", index));
    }
    ResolveCongruent(layout', layout, keyCode, mapName, mapIndex, fuel);
  }

  /**
   * A key inserted into a key map after an earlier key with the same code changes no
   * resolution of any code.
   */
  lemma DuplicateKeyNeverResolved(pre: seq<Node>, keyMapSet: Node, post: seq<Node>, actions: Node,
                                  pre2: seq<Node>, keyMap: Node, post2: seq<Node>,
                                  p: nat, dup: Node, keyCode: uint8, mapName: string, mapIndex: uint8, fuel: nat)
    requires keyMapSet.children == pre2 + [keyMap] + post2
    requires p <= |keyMap.children|
    requires "code" in dup.attrs
    requires Lookup(keyMap.children[..p], "key", NumberIs("code", dup.attrs["code"].number)).Some?
    ensures var keyboard := Node(Element, "keyboard", map[], pre + [keyMapSet] + post);
            var keyMap' := keyMap.(children := keyMap.children[..p] + [dup] + keyMap.children[p..]);
            var keyMapSet' := keyMapSet.(children := pre2 + [keyMap'] + post2);
            var keyboard' := keyboard.(children := pre + [keyMapSet'] + post);
            Resolve(Layout(keyboard', actions), keyCode, mapName, mapIndex, fuel)
            == Resolve(Layout(keyboard, actions), keyCode, mapName, mapIndex, fuel)
  {
    var keyboard := Node(Element, "keyboard", map[], pre + [keyMapSet] + post);
    var keyMap' := keyMap.(children := keyMap.children[..p] + [dup] + keyMap.children[p..]);
    var keyMapSet' := keyMapSet.(children := pre2 + [keyMap'] + post2);
    var keyboard' := keyboard.(children := pre + [keyMapSet'] + post);
    var layout, layout' := Layout(keyboard, actions), Layout(keyboard', actions);
    assert BaseOf(keyMap') == BaseOf(keyMap);
    LookupInsert(keyMap.children, p, dup, "key", NumberIs("code", keyCode));
    assert KeyBinding(keyMap', keyCode) == KeyBinding(keyMap, keyCode);
    forall name: string, index: uint8 ensures KeyMapsAgree(FindKeyMap(layout', name, index), FindKeyMap(layout, name, index), keyCode) {
      LookupReplace(pre, keyMapSet', keyMapSet, post, "keyMapSet", TextIs("id", name));
      LookupReplace(pre2, keyMap', keyMap, post2, "keyMap", NumberIs("index", index));
    }
    ResolveCongruent(layout', layout, keyCode, mapName, mapIndex, fuel);
  }
}
