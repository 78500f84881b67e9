/**
 * The rewrite of a KLE (keyboard-layout-editor) description: every key legend that names
 * an ISO key is replaced by what that key produces in key-map set "ISO", layer 0.
 */
module Kle {
  import opened Wrappers
  import opened KeyLayout
  import opened KeyNames

  /** A JSON value; numbers and objects are only copied, never looked into. */
  datatype Json =
    | Null
    | Boolean(b: bool)
    | Number(n: real)
    | String(s: string)
    | Array(items: seq<Json>)
    | Object(members: map<string, Json>)

  /**
   * Why a rewrite does not finish: an element of a row that is neither an object nor a
   * string (the JSON library's type error on conversion to a string), or a key whose chain
   * of base maps is longer than the fuel given.
   */
  datatype Error = NotAString(elem: Json) | BaseChainTooDeep(name: string)

  const LegendMapSet := "ISO"
  const LegendLayer: uint8 := 0

  /** The legend a key name is rewritten to. */
  function KeyLegend(layout: Layout, name: string, fuel: nat): (r: Result<string, Error>)
    ensures name !in Name2Keycode ==> r == Success(name)
    ensures r.Failure? <==>
              name in Name2Keycode && Resolve(layout, Name2Keycode[name], LegendMapSet, LegendLayer, fuel) == TooDeep
    ensures r.Success? && r.value != name ==>
              Resolve(layout, Name2Keycode[name], LegendMapSet, LegendLayer, fuel) == Output(r.value)
    ensures name in Name2Keycode && Resolve(layout, Name2Keycode[name], LegendMapSet, LegendLayer, fuel).Output? ==>
              r == Success(Resolve(layout, Name2Keycode[name], LegendMapSet, LegendLayer, fuel).text)
  {
    if name in Name2Keycode then
      match Resolve(layout, Name2Keycode[name], LegendMapSet, LegendLayer, fuel)
      case Output(text) => Success(text)
      case NoOutput => Success(name)
      case TooDeep => Failure(BaseChainTooDeep(name))
    else Success(name)
  }

  /** The property object written in front of the string at `k`: the element just before it, if an object. */
  function Attached(row: seq<Json>, k: nat): seq<Json>
    requires k < |row|
  {
    if 0 < k && row[k - 1].Object? then [row[k - 1]] else []
  }

  /** What the element at `k` contributes to the rewritten row. */
  function Piece(layout: Layout, row: seq<Json>, k: nat, fuel: nat): Result<seq<Json>, Error>
    requires k < |row|
  {
    match row[k]
    case Object(_) => Success([])
    case String(s) =>
      (match KeyLegend(layout, s, fuel)
       case Success(legend) => Success(Attached(row, k) + [String(legend)])
       case Failure(e) => Failure(e))
    case _ => Failure(NotAString(row[k]))
  }

  /** A row rewritten so far, followed by the next piece; the first error wins. */
  function Extend(front: Result<seq<Json>, Error>, piece: Result<seq<Json>, Error>): Result<seq<Json>, Error>
  {
    match front
    case Failure(e) => Failure(e)
    case Success(out) =>
      match piece
      case Failure(e) => Failure(e)
      case Success(p) => Success(out + p)
  }

  /** The rewritten row: the pieces of all elements in order, or the first element's error. */
  function RewrittenRow(layout: Layout, row: seq<Json>, fuel: nat): Result<seq<Json>, Error>
    decreases |row|
  {
    if |row| == 0 then Success([])
    else Extend(RewrittenRow(layout, row[..|row| - 1], fuel), Piece(layout, row, |row| - 1, fuel))
  }

  /** The rewritten row of a prefix, extended by one element. */
  lemma RowStep(layout: Layout, row: seq<Json>, i: nat, fuel: nat)
    requires i < |row|
    ensures RewrittenRow(layout, row[..i + 1], fuel)
            == Extend(RewrittenRow(layout, row[..i], fuel), Piece(layout, row, i, fuel))
  {
    assert row[..i + 1][..i] == row[..i];
    assert Piece(layout, row[..i + 1], i, fuel) == Piece(layout, row, i, fuel);
  }

  /** Once a prefix of the row fails, the whole row fails with the same error. */
  lemma {:induction false} FailureSticks(layout: Layout, row: seq<Json>, i: nat, fuel: nat)
    requires i <= |row|
    requires RewrittenRow(layout, row[..i], fuel).Failure?
    ensures RewrittenRow(layout, row, fuel) == RewrittenRow(layout, row[..i], fuel)
    decreases |row| - i
  {
    if i < |row| {
      RowStep(layout, row, i, fuel);
      FailureSticks(layout, row, i + 1, fuel);
    } else {
      assert row[..i] == row;
    }
  }

  /**
   * The loop over the elements of one array row: a property object is held back until
   * the next string, and each string is written with the legend its name resolves to.
   */
  method RewriteRow(layout: Layout, row: seq<Json>, fuel: nat) returns (r: Result<seq<Json>, Error>)
    ensures r == RewrittenRow(layout, row, fuel)
  {
    var outRow: seq<Json> := [];
    var keyProperties: Option<Json> := None;
    var i := 0;
    while i < |row|
      invariant i <= |row|
      invariant RewrittenRow(layout, row[..i], fuel) == Success(outRow)
      invariant keyProperties == if 0 < i && row[i - 1].Object? then Some(row[i - 1]) else None
    {
      var elem := row[i];
      RowStep(layout, row, i, fuel);
      if elem.Object? {
        assert outRow + [] == outRow;
        keyProperties := Some(elem);
        i := i + 1;
        continue;
      }
      if !elem.String? {
        FailureSticks(layout, row, i + 1, fuel);
        return Failure(NotAString(elem));
      }
      var str := elem.s;
      if str in Name2Keycode {
        var c := KeyOutput(layout, Name2Keycode[str], LegendMapSet, LegendLayer, fuel);
        if c.TooDeep? {
          FailureSticks(layout, row, i + 1, fuel);
          return Failure(BaseChainTooDeep(elem.s));
        }
        if c.Output? {
          str := c.text;
        }
      }
      assert KeyLegend(layout, elem.s, fuel) == Success(str);
      assert Piece(layout, row, i, fuel) == Success(Attached(row, i) + [String(str)]);
      assert Attached(row, i) == if keyProperties.Some? then [keyProperties.value] else [];
      ghost var front := outRow;
      if keyProperties.Some? {
        outRow := outRow + [keyProperties.value];
      }
      keyProperties := None;
      outRow := outRow + [String(str)];
      assert outRow == front + (Attached(row, i) + [String(str)]);
      i := i + 1;
    }
    assert row[..i] == row;
    return Success(outRow);
  }

  /**
   * The loop over the rows of the description: rows that are not arrays are copied,
   * array rows are rewritten; the first row that cannot be rewritten ends the run.
   */
  method RewriteKeyboard(layout: Layout, rows: seq<Json>, fuel: nat) returns (r: Result<seq<Json>, Error>)
    ensures r.Success? <==>
              forall i :: 0 <= i < |rows| && rows[i].Array? ==> RewrittenRow(layout, rows[i].items, fuel).Success?
    ensures r.Success? ==> |r.value| == |rows|
    ensures r.Success? ==> forall i :: 0 <= i < |rows| && !rows[i].Array? ==> r.value[i] == rows[i]
    ensures r.Success? ==> forall i :: 0 <= i < |rows| && rows[i].Array? ==>
              r.value[i].Array? && RewrittenRow(layout, rows[i].items, fuel) == Success(r.value[i].items)
    ensures r.Failure? ==>
              exists i :: 0 <= i < |rows| && rows[i].Array?
                && RewrittenRow(layout, rows[i].items, fuel) == Failure(r.error)
                && forall j :: 0 <= j < i && rows[j].Array? ==> RewrittenRow(layout, rows[j].items, fuel).Success?
  {
    var outJson: seq<Json> := [];
    var i := 0;
    while i < |rows|
      invariant i <= |rows|
      invariant |outJson| == i
      invariant forall j :: 0 <= j < i && rows[j].Array? ==> RewrittenRow(layout, rows[j].items, fuel).Success?
      invariant forall j :: 0 <= j < i && !rows[j].Array? ==> outJson[j] == rows[j]
      invariant forall j :: 0 <= j < i && rows[j].Array? ==>
                  outJson[j].Array? && RewrittenRow(layout, rows[j].items, fuel) == Success(outJson[j].items)
    {
      var row := rows[i];
      if !row.Array? {
        outJson := outJson + [row];
      } else {
        var outRow := RewriteRow(layout, row.items, fuel);
        if outRow.Failure? {
          return Failure(outRow.error);
        }
        outJson := outJson + [Array(outRow.value)];
      }
      i := i + 1;
    }
    return Success(outJson);
  }

  // Properties of the rewritten row

  /** The strings of a sequence of JSON values, in order. */
  function Strings(s: seq<Json>): seq<string>
  {
    if |s| == 0 then []
    else Strings(s[..|s| - 1]) + (if s[|s| - 1].String? then [s[|s| - 1].s] else [])
  }

  /** Every element is an object or a string whose legend can be resolved. */
  predicate Rewritable(layout: Layout, row: seq<Json>, fuel: nat)
  {
    forall k :: 0 <= k < |row| ==>
      row[k].Object? || (row[k].String? && KeyLegend(layout, row[k].s, fuel).Success?)
  }

  /** A row is rewritten exactly when every one of its elements can be. */
  lemma {:induction false} RowSucceedsIff(layout: Layout, row: seq<Json>, fuel: nat)
    ensures RewrittenRow(layout, row, fuel).Success? <==> Rewritable(layout, row, fuel)
    decreases |row|
  {
    if |row| > 0 {
      var front := row[..|row| - 1];
      RowSucceedsIff(layout, front, fuel);
      assert forall k :: 0 <= k < |front| ==> front[k] == row[k];
    }
  }

  /**
   * The strings of the rewritten row are the strings of the row, as many and in the
   * same order, each replaced by its legend.
   */
  lemma {:induction false} RowKeepsStrings(layout: Layout, row: seq<Json>, fuel: nat)
    requires RewrittenRow(layout, row, fuel).Success?
    ensures var out := RewrittenRow(layout, row, fuel).value;
            |Strings(out)| == |Strings(row)|
            && forall i :: 0 <= i < |Strings(row)| ==> KeyLegend(layout, Strings(row)[i], fuel) == Success(Strings(out)[i])
    decreases |row|
  {
    if |row| > 0 {
      var front := row[..|row| - 1];
      RowKeepsStrings(layout, front, fuel);
      var out := RewrittenRow(layout, row, fuel).value;
      var frontOut := RewrittenRow(layout, front, fuel).value;
      var piece := Piece(layout, row, |row| - 1, fuel).value;
      assert out == frontOut + piece;
      StringsAppend(frontOut, piece);
      if row[|row| - 1].String? {
        var legend := KeyLegend(layout, row[|row| - 1].s, fuel).value;
        assert piece == Attached(row, |row| - 1) + [String(legend)];
        StringsAppend(Attached(row, |row| - 1), [String(legend)]);
        assert Strings([String(legend)]) == [legend];
        assert Strings(Attached(row, |row| - 1)) == [];
      } else {
        assert piece == [];
      }
    }
  }

  lemma {:induction false} StringsAppend(a: seq<Json>, b: seq<Json>)
    ensures Strings(a + b) == Strings(a) + Strings(b)
    decreases |b|
  {
    if |b| > 0 {
      var b' := b[..|b| - 1];
      assert (a + b)[..|a + b| - 1] == a + b';
      StringsAppend(a, b');
    } else {
      assert a + b == a;
    }
  }

  /** The objects of a sequence, in order. */
  function Objects(s: seq<Json>): seq<Json>
  {
    if |s| == 0 then []
    else Objects(s[..|s| - 1]) + (if s[|s| - 1].Object? then [s[|s| - 1]] else [])
  }

  /** The objects of a row that stand directly before a string, in order. */
  function KeptObjects(row: seq<Json>): seq<Json>
  {
    if |row| < 2 then []
    else KeptObjects(row[..|row| - 1])
         + (if row[|row| - 2].Object? && row[|row| - 1].String? then [row[|row| - 2]] else [])
  }

  /**
   * The objects of the rewritten row are exactly the objects of the row that stood directly
   * before a string, in the same order: each is carried over to precede that string's legend.
   */
  lemma {:induction false} RowKeepsObjects(layout: Layout, row: seq<Json>, fuel: nat)
    requires RewrittenRow(layout, row, fuel).Success?
    ensures Objects(RewrittenRow(layout, row, fuel).value) == KeptObjects(row)
    decreases |row|
  {
    if |row| > 0 {
      var front := row[..|row| - 1];
      RowKeepsObjects(layout, front, fuel);
      var out := RewrittenRow(layout, row, fuel).value;
      var frontOut := RewrittenRow(layout, front, fuel).value;
      var piece := Piece(layout, row, |row| - 1, fuel).value;
      assert out == frontOut + piece;
      ObjectsAppend(frontOut, piece);
      if |row| == 1 {
        assert KeptObjects(front) == [];
      } else {
        assert front[|front| - 1] == row[|row| - 2];
      }
      if row[|row| - 1].String? {
        var legend := KeyLegend(layout, row[|row| - 1].s, fuel).value;
        assert piece == Attached(row, |row| - 1) + [String(legend)];
        ObjectsAppend(Attached(row, |row| - 1), [String(legend)]);
        assert Objects([String(legend)]) == [];
        if 0 < |row| - 1 && row[|row| - 2].Object? {
          assert Objects([row[|row| - 2]]) == [row[|row| - 2]];
        }
      } else {
        assert piece == [];
      }
    }
  }

  lemma {:induction false} ObjectsAppend(a: seq<Json>, b: seq<Json>)
    ensures Objects(a + b) == Objects(a) + Objects(b)
    decreases |b|
  {
    if |b| > 0 {
      var b' := b[..|b| - 1];
      assert (a + b)[..|a + b| - 1] == a + b';
      ObjectsAppend(a, b');
    } else {
      assert a + b == a;
    }
  }

  /** Every element is an object or a string, and every object is followed by a string. */
  predicate ObjectsAttached(out: seq<Json>)
  {
    && (forall k :: 0 <= k < |out| ==> out[k].Object? || out[k].String?)
    && (forall k :: 0 <= k < |out| && out[k].Object? ==> k + 1 < |out| && out[k + 1].String?)
  }

  /**
   * In a rewritten row every property object stands directly in front of a key string;
   * none stands alone or at the end.
   */
  lemma {:induction false} RowObjectsAttached(layout: Layout, row: seq<Json>, fuel: nat)
    requires RewrittenRow(layout, row, fuel).Success?
    ensures ObjectsAttached(RewrittenRow(layout, row, fuel).value)
    decreases |row|
  {
    if |row| > 0 {
      var front := row[..|row| - 1];
      RowObjectsAttached(layout, front, fuel);
      var frontOut := RewrittenRow(layout, front, fuel).value;
      var piece := Piece(layout, row, |row| - 1, fuel).value;
      assert ObjectsAttached(piece);
      ObjectsAttachedAppend(frontOut, piece);
    }
  }

  lemma ObjectsAttachedAppend(a: seq<Json>, b: seq<Json>)
    requires ObjectsAttached(a) && ObjectsAttached(b)
    ensures ObjectsAttached(a + b)
  {
    var out := a + b;
    forall k | 0 <= k < |out| && out[k].Object?
      ensures k + 1 < |out| && out[k + 1].String?
    {
      if k < |a| {
        assert out[k] == a[k];
        if a[k].Object? {
          assert out[k + 1] == a[k + 1];
        }
      } else {
        assert out[k] == b[k - |a|];
        if b[k - |a|].Object? {
          assert out[k + 1] == b[k + 1 - |a|];
        }
      }
    }
  }

  /** A property object at the end of a row is dropped. */
  lemma TrailingObjectDropped(layout: Layout, row: seq<Json>, o: Json, fuel: nat)
    requires o.Object?
    ensures RewrittenRow(layout, row + [o], fuel) == RewrittenRow(layout, row, fuel)
  {
    assert (row + [o])[..|row|] == row;
    match RewrittenRow(layout, row, fuel)
    case Failure(_) =>
    case Success(out) => assert out + [] == out;
  }

  /** Two elements with the same neighbourhood contribute the same piece. */
  lemma PieceSame(layout: Layout, a: seq<Json>, i: nat, b: seq<Json>, j: nat, fuel: nat)
    requires i < |a| && j < |b| && a[i] == b[j] && Attached(a, i) == Attached(b, j)
    ensures Piece(layout, a, i, fuel) == Piece(layout, b, j, fuel)
  {
  }

  /** Where the elements of `row` end up once `o` is inserted at `k`. */
  lemma InsertedRow(row: seq<Json>, k: nat, o: Json)
    requires k < |row| - 1
    ensures var row' := row[..k] + [o] + row[k..];
            var front := row[..|row| - 1];
            && row'[..|row|] == front[..k] + [o] + front[k..]
            && row'[|row|] == row[|row| - 1]
            && row'[|row| - 1] == row[|row| - 2]
  {
  }

  /** Of several property objects in a row only the last is kept: one before another is dropped. */
  lemma {:induction false} ShadowedObjectDropped(layout: Layout, row: seq<Json>, k: nat, o: Json, fuel: nat)
    requires k < |row| && row[k].Object? && o.Object?
    ensures RewrittenRow(layout, row[..k] + [o] + row[k..], fuel) == RewrittenRow(layout, row, fuel)
    decreases |row|
  {
    var row' := row[..k] + [o] + row[k..];
    var n := |row|;
    var front := row[..n - 1];
    if k == n - 1 {
      assert row'[..n] == front + [o];
      TrailingObjectDropped(layout, front, o, fuel);
      assert row'[n] == row[n - 1];
      assert Piece(layout, row', n, fuel) == Success([]) == Piece(layout, row, n - 1, fuel);
    } else {
      InsertedRow(row, k, o);
      assert front[k] == row[k];
      ShadowedObjectDropped(layout, front, k, o, fuel);
      PieceSame(layout, row', n, row, n - 1, fuel);
    }
  }

  /**
   * The row is rewritten from left to right: the rewrite of every prefix of the row is a
   * prefix of the rewrite of the row.
   */
  lemma {:induction false} RowPrefix(layout: Layout, row: seq<Json>, i: nat, fuel: nat)
    requires i <= |row|
    requires RewrittenRow(layout, row, fuel).Success?
    ensures RewrittenRow(layout, row[..i], fuel).Success?
    ensures RewrittenRow(layout, row[..i], fuel).value <= RewrittenRow(layout, row, fuel).value
    decreases |row| - i
  {
    if i == |row| {
      assert row[..i] == row;
    } else {
      RowPrefix(layout, row, i + 1, fuel);
      RowStep(layout, row, i, fuel);
    }
  }
}
