/** The `name2Keycode` table: KLE legend names of an ISO keyboard (UK QWERTY) to key codes. */
module KeyNames {
  import opened KeyLayout

  /** The digits row. */
  const NumberRow: seq<(string, uint8)> := [
    ("#`", 0x0A), ("#1", 0x12), ("#2", 0x13), ("#3", 0x14), ("#4", 0x15),
    ("#5", 0x17), ("#6", 0x16), ("#7", 0x1A), ("#8", 0x1C), ("#9", 0x19),
    ("#0", 0x1D), ("#-", 0x1B), ("#=", 0x18)
  ]

  /** The top letter row. */
  const TopRow: seq<(string, uint8)> := [
    ("#Q", 0x0C), ("#W", 0x0D), ("#E", 0x0E), ("#R", 0x0F), ("#T", 0x11),
    ("#Y", 0x10), ("#U", 0x20), ("#I", 0x22), ("#O", 0x1F), ("#P", 0x23),
    ("#[", 0x21), ("#]", 0x1E)
  ]

  /** The home row. */
  const HomeRow: seq<(string, uint8)> := [
    ("#A", 0x00), ("#S", 0x01), ("#D", 0x02), ("#F", 0x03), ("#G", 0x05),
    ("#H", 0x04), ("#J", 0x26), ("#K", 0x28), ("#L", 0x25), ("#;", 0x29),
    ("#'", 0x27), ("##", 0x2A)
  ]

  /** The bottom row and space bar. */
  const BottomRow: seq<(string, uint8)> := [
    ("#B/", 0x32), ("#Z", 0x06), ("#X", 0x07), ("#C", 0x08), ("#V", 0x09),
    ("#B", 0x0B), ("#N", 0x2D), ("#M", 0x2E), ("#,", 0x2B), ("#.", 0x2F),
    ("#/", 0x2C), ("#SPACE", 0x31)
  ]

  /** The table's initializer list, in the order the program writes it. */
  const Name2KeycodeEntries: seq<(string, uint8)> := NumberRow + TopRow + HomeRow + BottomRow

  /**
   * The map an `unordered_map` gets from an initializer list: entries are inserted in
   * order and an insert of a name already present is ignored.
   */
  function ToMap(entries: seq<(string, uint8)>): map<string, uint8>
  {
    if |entries| == 0 then map[]
    else
      var m := ToMap(entries[..|entries| - 1]);
      var (name, code) := entries[|entries| - 1];
      if name in m then m else m[name := code]
  }

  const Name2Keycode: map<string, uint8> := ToMap(Name2KeycodeEntries)

  predicate NamesDistinct(entries: seq<(string, uint8)>)
  {
    forall i, j :: 0 <= i < j < |entries| ==> entries[i].0 != entries[j].0
  }

  /** With distinct names the map holds every entry, and nothing else. */
  lemma {:induction false} ToMapOfDistinct(entries: seq<(string, uint8)>)
    requires NamesDistinct(entries)
    ensures |ToMap(entries)| == |entries|
    ensures forall i :: 0 <= i < |entries| ==>
              entries[i].0 in ToMap(entries) && ToMap(entries)[entries[i].0] == entries[i].1
    ensures forall name :: name in ToMap(entries) ==> exists i :: 0 <= i < |entries| && entries[i].0 == name
  {
    if |entries| > 0 {
      var front := entries[..|entries| - 1];
      assert NamesDistinct(front);
      ToMapOfDistinct(front);
      var last := entries[|entries| - 1];
      assert last.0 !in ToMap(front);
      forall i | 0 <= i < |entries|
        ensures entries[i].0 in ToMap(entries) && ToMap(entries)[entries[i].0] == entries[i].1
      {
        if i < |entries| - 1 {
          assert entries[i] == front[i];
        }
      }
      forall name | name in ToMap(entries)
        ensures exists i :: 0 <= i < |entries| && entries[i].0 == name
      {
        if name != last.0 {
          var i :| 0 <= i < |front| && front[i].0 == name;
          assert entries[i] == front[i];
        }
      }
    }
  }

  // The table facts below are proved by giving, for every name and every code, the
  // position of the one entry that has it.

  /** The position of the entry whose name is `name`, read off its second character or its length. */
  function EntryOfName(name: string): int
  {
    match if |name| == 2 then name[1] as int else |name|
      case 96 => 0
      case 49 => 1
      case 50 => 2
      case 51 => 3
      case 52 => 4
      case 53 => 5
      case 54 => 6
      case 55 => 7
      case 56 => 8
      case 57 => 9
      case 48 => 10
      case 45 => 11
      case 61 => 12
      case 81 => 13
      case 87 => 14
      case 69 => 15
      case 82 => 16
      case 84 => 17
      case 89 => 18
      case 85 => 19
      case 73 => 20
      case 79 => 21
      case 80 => 22
      case 91 => 23
      case 93 => 24
      case 65 => 25
      case 83 => 26
      case 68 => 27
      case 70 => 28
      case 71 => 29
      case 72 => 30
      case 74 => 31
      case 75 => 32
      case 76 => 33
      case 59 => 34
      case 39 => 35
      case 35 => 36
      case 3 => 37
      case 90 => 38
      case 88 => 39
      case 67 => 40
      case 86 => 41
      case 66 => 42
      case 78 => 43
      case 77 => 44
      case 44 => 45
      case 46 => 46
      case 47 => 47
      case 6 => 48
      case _ => -1
  }

  /** The position of the entry whose code is `code`. */
  function EntryOfCode(code: int): int
  {
    match code
      case 10 => 0
      case 18 => 1
      case 19 => 2
      case 20 => 3
      case 21 => 4
      case 23 => 5
      case 22 => 6
      case 26 => 7
      case 28 => 8
      case 25 => 9
      case 29 => 10
      case 27 => 11
      case 24 => 12
      case 12 => 13
      case 13 => 14
      case 14 => 15
      case 15 => 16
      case 17 => 17
      case 16 => 18
      case 32 => 19
      case 34 => 20
      case 31 => 21
      case 35 => 22
      case 33 => 23
      case 30 => 24
      case 0 => 25
      case 1 => 26
      case 2 => 27
      case 3 => 28
      case 5 => 29
      case 4 => 30
      case 38 => 31
      case 40 => 32
      case 37 => 33
      case 41 => 34
      case 39 => 35
      case 42 => 36
      case 50 => 37
      case 6 => 38
      case 7 => 39
      case 8 => 40
      case 9 => 41
      case 11 => 42
      case 45 => 43
      case 46 => 44
      case 43 => 45
      case 47 => 46
      case 44 => 47
      case 49 => 48
      case _ => -1
  }

  predicate RowIndexed(row: seq<(string, uint8)>, offset: int)
  {
    forall k :: 0 <= k < |row| ==>
      EntryOfName(row[k].0) == offset + k && EntryOfCode(row[k].1) == offset + k && row[k].1 <= 0x32
  }

  lemma NumberRowIndexed()
    ensures RowIndexed(NumberRow, 0)
  {
    forall k | 0 <= k < |NumberRow|
      ensures EntryOfName(NumberRow[k].0) == 0 + k && EntryOfCode(NumberRow[k].1) == 0 + k
      ensures NumberRow[k].1 <= 0x32
    {
      assert k == 0 || k == 1 || k == 2 || k == 3 || k == 4 || k == 5 || k == 6 || k == 7 || k == 8 || k == 9 || k == 10 || k == 11 || k == 12;
    }
  }

  lemma TopRowIndexed()
    ensures RowIndexed(TopRow, 13)
  {
    forall k | 0 <= k < |TopRow|
      ensures EntryOfName(TopRow[k].0) == 13 + k && EntryOfCode(TopRow[k].1) == 13 + k
      ensures TopRow[k].1 <= 0x32
    {
      assert k == 0 || k == 1 || k == 2 || k == 3 || k == 4 || k == 5 || k == 6 || k == 7 || k == 8 || k == 9 || k == 10 || k == 11;
    }
  }

  lemma HomeRowIndexed()
    ensures RowIndexed(HomeRow, 25)
  {
    forall k | 0 <= k < |HomeRow|
      ensures EntryOfName(HomeRow[k].0) == 25 + k && EntryOfCode(HomeRow[k].1) == 25 + k
      ensures HomeRow[k].1 <= 0x32
    {
      assert k == 0 || k == 1 || k == 2 || k == 3 || k == 4 || k == 5 || k == 6 || k == 7 || k == 8 || k == 9 || k == 10 || k == 11;
    }
  }

  lemma BottomRowIndexed()
    ensures RowIndexed(BottomRow, 37)
  {
    forall k | 0 <= k < |BottomRow|
      ensures EntryOfName(BottomRow[k].0) == 37 + k && EntryOfCode(BottomRow[k].1) == 37 + k
      ensures BottomRow[k].1 <= 0x32
    {
      assert k == 0 || k == 1 || k == 2 || k == 3 || k == 4 || k == 5 || k == 6 || k == 7 || k == 8 || k == 9 || k == 10 || k == 11;
    }
  }

  lemma EntriesIndexed()
    ensures RowIndexed(Name2KeycodeEntries, 0)
  {
    NumberRowIndexed();
    TopRowIndexed();
    HomeRowIndexed();
    BottomRowIndexed();
    var e := Name2KeycodeEntries;
    forall i | 0 <= i < |e|
      ensures EntryOfName(e[i].0) == i && EntryOfCode(e[i].1) == i && e[i].1 <= 0x32
    {
      if i < 13 {
        assert e[i] == NumberRow[i];
      } else if i < 25 {
        assert e[i] == TopRow[i - 13];
      } else if i < 37 {
        assert e[i] == HomeRow[i - 25];
      } else {
        assert e[i] == BottomRow[i - 37];
      }
    }
  }

  /** 49 distinct names, pairwise distinct codes, every code between 0x00 and 0x32. */
  lemma Name2KeycodeTable()
    ensures |Name2Keycode| == 49
    ensures forall a, b :: a in Name2Keycode && b in Name2Keycode && a != b ==> Name2Keycode[a] != Name2Keycode[b]
    ensures forall a :: a in Name2Keycode ==> 0x00 <= Name2Keycode[a] <= 0x32
  {
    var e := Name2KeycodeEntries;
    EntriesIndexed();
    assert NamesDistinct(e) by {
      forall i, j | 0 <= i < j < |e| ensures e[i].0 != e[j].0 {
        assert EntryOfName(e[i].0) != EntryOfName(e[j].0);
      }
    }
    ToMapOfDistinct(e);
    forall a, b | a in Name2Keycode && b in Name2Keycode && a != b
      ensures Name2Keycode[a] != Name2Keycode[b]
    {
      var i :| 0 <= i < |e| && e[i].0 == a;
      var j :| 0 <= j < |e| && e[j].0 == b;
      assert EntryOfCode(e[i].1) != EntryOfCode(e[j].1);
    }
    forall a | a in Name2Keycode ensures Name2Keycode[a] <= 0x32 {
      var i :| 0 <= i < |e| && e[i].0 == a;
    }
  }
}
