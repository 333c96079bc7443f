/** The on-screen keyboard of the graphical client
    (examples/gui/src/keyboard.rs), tile state only: three rows of keys, each
    key a letter with a colour tile, recoloured by the feedback to each guess.
    A tile that shows Correct keeps it. */
module Keyboard {
  import opened Types

  /** The tile colours; `Pending` is the colour of a key not yet guessed. */
  datatype Tile = Empty | NotEntered | NotFound | WrongPlace | Correct | Pending

  /** The conversion `cmatch.align.into()`, which the repository's files do not
      define; taken as: Exact shows Correct, Misplaced shows WrongPlace and
      NotFound shows NotFound. */
  function TileOf(a: CharAlignment): Tile
  {
    if a == Exact then Correct
    else if a == Misplaced then WrongPlace
    else Tile.NotFound
  }

  datatype Key = Key(c: char, tile: Tile)

  /** The keys of a fresh row: one `Pending` key per letter, in order. */
  function PendingKeys(letters: string): (r: seq<Key>)
    ensures |r| == |letters|
    ensures forall i :: 0 <= i < |r| ==> r[i] == Key(letters[i], Pending)
  {
    seq(|letters|, i requires 0 <= i < |letters| => Key(letters[i], Pending))
  }

  predicate OnRow(row: seq<Key>, c: char)
  {
    exists i :: 0 <= i < |row| && row[i].c == c
  }

  /** The position of the first key for letter `c`, or `|row|` if there is none. */
  function KeyIndex(row: seq<Key>, c: char): (i: nat)
    ensures i <= |row|
    ensures i < |row| ==> row[i].c == c
    ensures forall j :: 0 <= j < i ==> row[j].c != c
    ensures i == |row| <==> !OnRow(row, c)
  {
    if row == [] then 0
    else if row[0].c == c then 0
    else 1 + KeyIndex(row[1..], c)
  }

  /** The tile rule for the key that matched: Correct stays, anything else takes
      the colour of the alignment. */
  function Recolour(k: Key, a: CharAlignment): Key
  {
    if k.tile == Correct then k else Key(k.c, TileOf(a))
  }

  /** `KeyboardRow::update` on the keys: the first key for the letter is
      recoloured, and no other key changes. */
  function RowUpdate(row: seq<Key>, m: CharMatch): seq<Key>
  {
    var i := KeyIndex(row, m.c);
    if i < |row| then row[i := Recolour(row[i], m.align)] else row
  }

  /** The index of the first row holding letter `c`, or `|rows|` if none does. */
  function RowIndex(rows: seq<seq<Key>>, c: char): (i: nat)
    ensures i <= |rows|
    ensures i < |rows| ==> OnRow(rows[i], c)
    ensures forall j :: 0 <= j < i ==> !OnRow(rows[j], c)
  {
    if rows == [] then 0
    else if OnRow(rows[0], c) then 0
    else 1 + RowIndex(rows[1..], c)
  }

  /** One step of `Keyboard::update`: the rows are tried in order and the first
      row that holds the letter takes the match. */
  function BoardUpdate(rows: seq<seq<Key>>, m: CharMatch): seq<seq<Key>>
  {
    var i := RowIndex(rows, m.c);
    if i < |rows| then rows[i := RowUpdate(rows[i], m)] else rows
  }

  /** `Keyboard::update`: the matches of a guess applied in order. */
  function KeyboardAfter(rows: seq<seq<Key>>, ms: StringMatch): seq<seq<Key>>
  {
    if ms == [] then rows else BoardUpdate(KeyboardAfter(rows, ms[..|ms| - 1]), ms[|ms| - 1])
  }

  /** The rows of `Keyboard::new`. */
  function Layout(): seq<seq<Key>>
  {
    [PendingKeys("qwertyuiop"), PendingKeys("asdfghjkl"), PendingKeys("zxcvbnm")]
  }

  /** The row update keeps every letter where it is, recolours the first key of
      the matched letter by the tile rule, and leaves every other key alone. */
  lemma RowUpdateKeys(row: seq<Key>, m: CharMatch)
    ensures |RowUpdate(row, m)| == |row|
    ensures forall i :: 0 <= i < |row| ==> RowUpdate(row, m)[i].c == row[i].c
    ensures forall i :: 0 <= i < |row| && i != KeyIndex(row, m.c) ==> RowUpdate(row, m)[i] == row[i]
    ensures forall i :: 0 <= i < |row| && i == KeyIndex(row, m.c) ==>
      RowUpdate(row, m)[i] == (if row[i].tile == Correct then row[i] else Key(m.c, TileOf(m.align)))
  {
  }

  /** A letter that is not on the row changes nothing. */
  lemma RowUpdateAbsent(row: seq<Key>, m: CharMatch)
    requires !OnRow(row, m.c)
    ensures RowUpdate(row, m) == row
  {
  }

  /** A Correct key stays Correct, whatever the match. */
  lemma RowUpdateKeepsCorrect(row: seq<Key>, m: CharMatch, i: nat)
    requires i < |row| && row[i].tile == Correct
    ensures RowUpdate(row, m)[i] == row[i]
  {
  }

  /** A board step changes only the first row holding the letter, keeps the
      shape and the letters of the board, and a letter on no row changes nothing. */
  lemma BoardUpdateRows(rows: seq<seq<Key>>, m: CharMatch)
    ensures |BoardUpdate(rows, m)| == |rows|
    ensures forall r :: 0 <= r < |rows| && r != RowIndex(rows, m.c) ==> BoardUpdate(rows, m)[r] == rows[r]
    ensures forall r :: 0 <= r < |rows| && r == RowIndex(rows, m.c) ==> BoardUpdate(rows, m)[r] == RowUpdate(rows[r], m)
    ensures (forall r :: 0 <= r < |rows| ==> !OnRow(rows[r], m.c)) ==> BoardUpdate(rows, m) == rows
  {
  }

  /** After any number of matches the board has the same rows of the same
      letters, and every key that showed Correct still does. */
  lemma {:induction false} KeyboardAfterKeepsCorrect(rows: seq<seq<Key>>, ms: StringMatch)
    ensures |KeyboardAfter(rows, ms)| == |rows|
    ensures forall r :: 0 <= r < |rows| ==> |KeyboardAfter(rows, ms)[r]| == |rows[r]|
    ensures forall r, i :: 0 <= r < |rows| && 0 <= i < |rows[r]| ==> KeyboardAfter(rows, ms)[r][i].c == rows[r][i].c
    ensures forall r, i :: 0 <= r < |rows| && 0 <= i < |rows[r]| && rows[r][i].tile == Correct ==>
      KeyboardAfter(rows, ms)[r][i] == rows[r][i]
  {
    if ms != [] {
      var before := KeyboardAfter(rows, ms[..|ms| - 1]);
      KeyboardAfterKeepsCorrect(rows, ms[..|ms| - 1]);
      BoardUpdateRows(before, ms[|ms| - 1]);
      forall r | 0 <= r < |before|
        ensures |BoardUpdate(before, ms[|ms| - 1])[r]| == |before[r]|
        ensures forall i :: 0 <= i < |before[r]| ==> BoardUpdate(before, ms[|ms| - 1])[r][i].c == before[r][i].c
        ensures forall i :: 0 <= i < |before[r]| && before[r][i].tile == Correct ==>
          BoardUpdate(before, ms[|ms| - 1])[r][i] == before[r][i]
      {
        RowUpdateKeys(before[r], ms[|ms| - 1]);
      }
    }
  }

  /** Matches for letters that are on no row leave the board as it was. */
  lemma {:induction false} KeyboardAfterOffBoard(rows: seq<seq<Key>>, ms: StringMatch)
    requires forall k, r :: 0 <= k < |ms| && 0 <= r < |rows| ==> !OnRow(rows[r], ms[k].c)
    ensures KeyboardAfter(rows, ms) == rows
  {
    if ms != [] {
      KeyboardAfterOffBoard(rows, ms[..|ms| - 1]);
      BoardUpdateRows(rows, ms[|ms| - 1]);
    }
  }

  /** A fresh keyboard: three rows of 10, 9 and 7 Pending keys, the letters of
      each row in keyboard order. */
  lemma LayoutLetters()
    ensures |Layout()| == 3
    ensures |Layout()[0]| == 10 && |Layout()[1]| == 9 && |Layout()[2]| == 7
    ensures forall r, i :: 0 <= r < 3 && 0 <= i < |Layout()[r]| ==> Layout()[r][i].tile == Pending
    ensures forall i :: 0 <= i < 10 ==> Layout()[0][i].c == "qwertyuiop"[i]
    ensures forall i :: 0 <= i < 9 ==> Layout()[1][i].c == "asdfghjkl"[i]
    ensures forall i :: 0 <= i < 7 ==> Layout()[2][i].c == "zxcvbnm"[i]
  {
  }

  /** `KeyboardRow`: the keys of one row, recoloured in place. */
  class KeyboardRow {
    var row: seq<Key>

    /** `KeyboardRow::new`. */
    constructor New(letters: string)
      ensures row == PendingKeys(letters)
    {
      row := PendingKeys(letters);
    }

    /** `KeyboardRow::update`: walks the row, recolours the first key for the
        letter (unless it is Correct) and reports whether there was one. */
    method Update(m: CharMatch) returns (found: bool)
      modifies this
      ensures found <==> OnRow(old(row), m.c)
      ensures row == RowUpdate(old(row), m)
    {
      for k := 0 to |row|
        invariant row == old(row)
        invariant forall j :: 0 <= j < k ==> row[j].c != m.c
      {
        if row[k].c == m.c {
          match row[k].tile {
            case Correct =>
            case _ => row := row[k := Key(row[k].c, TileOf(m.align))];
          }
          return true;
        }
      }
      return false;
    }
  }

  /** `Keyboard`: its rows, each a `KeyboardRow` object of its own. */
  class Keyboard {
    const rows: seq<KeyboardRow>

    ghost predicate Valid()
      reads this
    {
      forall i, j :: 0 <= i < j < |rows| ==> rows[i] != rows[j]
    }

    /** The keys of every row, in order. */
    ghost function Keys(): seq<seq<Key>>
      reads this, rows
    {
      seq(|rows|, i requires 0 <= i < |rows| reads rows => rows[i].row)
    }

    /** `Keyboard::new`. */
    constructor New()
      ensures Valid() && fresh(rows) && Keys() == Layout()
    {
      var top := new KeyboardRow.New("qwertyuiop");
      var middle := new KeyboardRow.New("asdfghjkl");
      var bottom := new KeyboardRow.New("zxcvbnm");
      rows := [top, middle, bottom];
    }

    /** `row.update(tc)` on row `r`: only that row's keys change. */
    method UpdateRow(r: nat, m: CharMatch) returns (found: bool)
      requires Valid() && r < |rows|
      modifies rows[r]
      ensures found <==> OnRow(old(Keys())[r], m.c)
      ensures Keys() == old(Keys())[r := RowUpdate(old(Keys())[r], m)]
    {
      found := rows[r].Update(m);
    }

    /** The inner loop of `Keyboard::update` for one match: the rows are tried
        in order and the first that holds the letter takes it. */
    method Apply(m: CharMatch)
      requires Valid()
      modifies rows
      ensures Keys() == BoardUpdate(old(Keys()), m)
    {
      ghost var before := Keys();
      var r := 0;
      while r < |rows|
        invariant r <= |rows|
        invariant Keys() == before
        invariant forall j :: 0 <= j < r ==> !OnRow(before[j], m.c)
        decreases |rows| - r
      {
        var found := UpdateRow(r, m);
        if found {
          assert RowIndex(before, m.c) == r;
          return;
        }
        r := r + 1;
      }
      assert RowIndex(before, m.c) == |before|;
    }

    /** `Keyboard::update`: the matches of the guess, one after another. */
    method Update(ms: StringMatch)
      requires Valid()
      modifies rows
      ensures Keys() == KeyboardAfter(old(Keys()), ms)
    {
      for k := 0 to |ms|
        invariant Keys() == KeyboardAfter(old(Keys()), ms[..k])
      {
        Apply(ms[k]);
        assert ms[..k + 1][..k] == ms[..k];
      }
      assert ms[..|ms|] == ms;
    }
  }
}
