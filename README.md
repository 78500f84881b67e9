# Keylayout2kle: layout resolution and KLE legend rewrite

Keylayout2kle reads an Apple keyboard layout (`.keylayout`, XML) and a
keyboard-layout-editor description (KLE, JSON). It rewrites every KLE key
legend that names an ISO key (`#Q`, `#1`, `#SPACE`, ...) to the text that key
produces in the layout: key-map set `ISO`, layer 0, state `none`.

This Dafny project models that resolution and rewrite, in four modules:

- `Xml` (`xml.dfy`): the parsed document as a tree of nodes, each with a kind,
  a name, attributes and children. It holds the sibling walk `findNextChild`
  (`FindNextChild`) and the first-match search that every `ITERATE_CHILDREN`
  loop does when its body begins with `if (!test) continue;` and ends with
  `break` (`FindFirst`, specified by the function `Lookup`).
- `KeyLayout` (`key_layout.dfy`): `keyOutput`. The first key-map set with the
  id is searched, then its first key map with the index, then that map's first
  key with the code. A key's `output` attribute wins. Otherwise its `action`
  is resolved through the first `action` with that id and that action's first
  `when` in state `none`. A key map with no usable binding defers to its
  `baseMapSet`/`baseIndex`. The method `KeyOutput` follows the program's
  control flow and is proved equal to the function `Resolve`. Lemmas about
  `Resolve` state that behaviour case by case.
- `KeyNames` (`key_names.dfy`): the `name2Keycode` table, built from its
  initializer list the way `unordered_map` inserts.
- `Kle` (`kle.dfy`): the loop over the KLE rows and the loop over the elements
  of each array row. The methods `RewriteKeyboard` and `RewriteRow` are proved
  against the function `RewrittenRow`. That function defines the output row
  element by element: a string becomes the property object just before it (if
  there is one), followed by its rewritten legend; an object becomes nothing on
  its own.

Base-map recursion has no bound in the program: a cyclic chain recurses until
the stack overflows. The model therefore takes a `fuel` argument, the number
of base-map hops allowed. Running out gives `TooDeep`. `FuelMonotone` shows
that fuel is only a bound: once a resolution finishes, more fuel does not
change its answer.

Three points of `keyOutput` (`src/main.cpp`) that the model keeps as written:

- A key whose action has no `when` in state `none`, or no output there,
  resolves to null. The base map is not consulted, because the `else if` at
  line 67 skips the fallback whenever the key had an action.
- The base map is also consulted when the key exists but has neither an
  `output` nor an `action` attribute, not only when the code is missing.
- Dead-key transitions (`next`) are not followed (the TODO at line 62). A
  `when` without `output` gives null.

## Model

| member | source | states |
|---|---|---|
| `Xml.FindNextChild` | src/main.cpp:21-26 | returns the first position at or after `start` holding an element with the name, or the end (null) when there is none; every position skipped fails the test |
| `Xml.FindFirst` | src/main.cpp:9-11 | the `ITERATE_CHILDREN` plus `continue` loop returns exactly `Lookup`: the first element with the name that passes the attribute test |
| `Xml.LookupIsFirstMatch` | src/main.cpp:9-11 | `Lookup` is None iff no sibling matches; otherwise it is a matching sibling with no match before it |
| `Xml.LookupIgnoresLater` | src/main.cpp:33-53 | once a match exists, siblings after it are never consulted |
| `Xml.LookupInsert` | src/main.cpp:33-53 | inserting a node after an earlier match, or a node that does not match, leaves the lookup unchanged |
| `KeyLayout.ActionOutput` | src/main.cpp:54-66 | an action reference never falls through: the result is an output or null; the result is an output exactly when the first action with that id has a first `when` in state `none` carrying an `output`, and then it is that text |
| `KeyLayout.KeyOutput` | src/main.cpp:28-77 | the nested searches, the early return on `output`, the action search and the tail call for the base map compute exactly `Resolve` |
| `KeyLayout.NoKeyMapNoOutput` | src/main.cpp:67-76 | with no key-map set with the id, or no key map with the index in it, the result is null |
| `KeyLayout.DirectOutputWins` | src/main.cpp:42-45 | when the first matching key has an `output` attribute, that text is the result, whatever the fuel |
| `KeyLayout.ActionDecides` | src/main.cpp:46-66 | a matching key with `action` and no `output` resolves to the action's outcome, whatever the fuel, without the base map |
| `KeyLayout.FallbackToBase` | src/main.cpp:67-75 | a found key map with no usable binding gives null without a base; with one it gives the resolution of the same code in `baseMapSet` at `baseIndex` mod 256 |
| `KeyLayout.FuelMonotone` | src/main.cpp:69-74 | a resolution that finishes within some fuel gives the same result with any larger fuel |
| `KeyLayout.DuplicateMapSetIgnored` | src/main.cpp:33-53 | a later key-map set with an id that an earlier set already has changes no resolution, even through base maps |
| `KeyLayout.DuplicateKeyMapIgnored` | src/main.cpp:36-51 | a later key map with the same index in a set is never the one found |
| `KeyLayout.DuplicateKeyIgnored` | src/main.cpp:40-48 | a later key with the same code in a key map does not change the key's binding |
| `KeyLayout.ResolveCongruent` | src/main.cpp:28-77 | two layouts with the same actions whose key-map searches agree on presence, on the binding of the code and on the base resolve the code alike, for every map, index and fuel |
| `KeyLayout.LookupReplace` | src/main.cpp:33-40 | replacing a sibling by one the search tests alike changes the first match at most by that replacement |
| `KeyLayout.DuplicateKeyMapNeverResolved` | src/main.cpp:36-51 | a key map inserted into a set after one with the same index changes no resolution, even through base maps |
| `KeyLayout.DuplicateKeyNeverResolved` | src/main.cpp:40-48 | a key inserted into a key map after one with the same code changes no resolution, even through base maps |
| `KeyNames.ToMapOfDistinct` | src/main.cpp:105-106 | an initializer list with distinct names gives a map with one entry per element, each name bound to its own code |
| `KeyNames.Name2KeycodeTable` | src/main.cpp:105-156 | the table holds 49 names, maps them to pairwise distinct codes, and every code is between 0x00 and 0x32 |
| `Kle.KeyLegend` | src/main.cpp:172-178 | a name outside the table is kept; a name in the table becomes its key's output in set `ISO`, layer 0, when there is one, and is kept when the output is null; it fails only when the base chain exceeds the fuel |
| `Kle.RewriteRow` | src/main.cpp:163-183 | the element loop, with its held-back `keyProperties`, computes exactly `RewrittenRow`, including the error of the first element that is neither an object nor a string |
| `Kle.RewriteKeyboard` | src/main.cpp:158-185 | rows that are not arrays are copied unchanged; each array row is replaced by its rewritten row; the run fails with the error of the first array row that cannot be rewritten |
| `Kle.RowSucceedsIff` | src/main.cpp:165-178 | a row can be rewritten iff every element is an object or a string whose legend resolves |
| `Kle.RowKeepsStrings` | src/main.cpp:172-181 | the rewritten row has as many strings as the row, in the same order, each the legend of the corresponding input string |
| `Kle.RowObjectsAttached` | src/main.cpp:179-181 | every element of a rewritten row is an object or a string, and every object is directly followed by a string |
| `Kle.RowKeepsObjects` | src/main.cpp:164-181 | the objects of the rewritten row are exactly those objects of the row that stood directly before a string, in the same order |
| `Kle.TrailingObjectDropped` | src/main.cpp:164-183 | a property object at the end of a row does not appear in the output |
| `Kle.ShadowedObjectDropped` | src/main.cpp:167-171 | an object directly followed by another object is dropped: only the last of several consecutive objects survives |
| `Kle.RowPrefix` | src/main.cpp:165-182 | the rewrite of every prefix of a row is a prefix of the rewrite of the row |

## Left out

- Reading the layout with libxml2 and locating the root and `actions` elements
  (src/main.cpp:87-98): the model takes the `keyboard` and `actions` nodes as
  given. A layout without an `actions` element is not modelled. The program
  dereferences `nullptr` there as soon as a key has an action.
- Parsing the KLE file, printing the result, and `argc`/`argv` handling
  (src/main.cpp:81-85, 101, 187): these are I/O. The model takes the top-level
  JSON array as a sequence of rows. A top-level document that is not an array
  is not modelled.
- `atoi`: each attribute carries the number `atoi` would return for its text
  (`Attr.number`). The conversion itself is not modelled. The `uint8_t`
  truncation of `baseIndex` is modelled as `mod 256`.
- Missing `id`, `state`, `index` or `code` attributes: the program's behaviour
  is undefined there (`strcmp` or `atoi` on `nullptr`). The model treats
  such a node as not matching.
- A key map with `baseMapSet` but no `baseIndex` calls `atoi` on
  `nullptr`, which is undefined. The model takes no fallback for such a map.
- Unbounded recursion on cyclic base chains: modelled with `fuel`. Running out
  gives `TooDeep` in `Resolve` and `BaseChainTooDeep` in the rewrite. The
  program would recurse until the stack overflows.
- JSON numbers are modelled as reals and objects as maps. The rewrite copies
  both without looking inside.
- Dead-key transitions, states other than `none`, the search for state paths,
  and legend merging: none of these exist in this revision of the program.
