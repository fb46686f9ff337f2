/** Text rendering of a card (format_bingo_card in game_logic.py): one line
    per row, cells joined by " | ", a drawn number marked with a check mark
    and bold tags, an empty cell shown as two spaces. */
module CardText {
  import opened Cards

  function DigitChar(d: int): char
    requires 0 <= d < 10
  {
    "0123456789"[d]
  }

  predicate IsDigit(ch: char) {
    '0' <= ch <= '9'
  }

  function DigitValue(ch: char): int
    requires IsDigit(ch)
  {
    ch as int - '0' as int
  }

  /** Decimal digits of a natural number, no leading zeros. */
  function NatToString(n: nat): string
    decreases n
  {
    if n < 10 then [DigitChar(n)] else NatToString(n / 10) + [DigitChar(n % 10)]
  }

  /** Python's `str(n)` for an integer. */
  function IntToString(n: int): string
  {
    if n < 0 then "-" + NatToString(-n) else NatToString(n)
  }

  /** `f"{n:2}"`: right-aligned in a field at least two characters wide. */
  function Pad2(n: int): string
  {
    var s := IntToString(n);
    if |s| < 2 then " " + s else s
  }

  const DrawnMark := "✅<b>"
  const DrawnEnd := "</b>"

  /** One cell: drawn numbers (tested first) are marked, other numbers are
      padded, and the empty cell 0 is two spaces. */
  function FormatCell(num: int, drawn: seq<int>): string
  {
    if num in drawn then DrawnMark + Pad2(num) + DrawnEnd
    else if num != 0 then Pad2(num)
    else "  "
  }

  /** `sep.join(parts)` */
  function Join(parts: seq<string>, sep: string): string
  {
    if parts == [] then ""
    else if |parts| == 1 then parts[0]
    else parts[0] + sep + Join(parts[1..], sep)
  }

  function FormatCells(row: seq<int>, drawn: seq<int>): seq<string>
  {
    seq(|row|, i requires 0 <= i < |row| => FormatCell(row[i], drawn))
  }

  function FormatRow(row: seq<int>, drawn: seq<int>): string
  {
    Join(FormatCells(row, drawn), " | ")
  }

  function FormatRows(card: Card, drawn: seq<int>): seq<string>
  {
    seq(|card|, i requires 0 <= i < |card| => FormatRow(card[i], drawn))
  }

  /** format_bingo_card(card, drawn_numbers); the source's default for
      `drawn_numbers` is the empty list. */
  function FormatCard(card: Card, drawn: seq<int>): string
  {
    Join(FormatRows(card, drawn), "\n")
  }

  // ---------------------------------------------------------------------
  // Reading a rendering back

  /** Value of a string of decimal digits. */
  function ParseDigits(s: string): int
    requires forall i :: 0 <= i < |s| ==> IsDigit(s[i])
  {
    if s == [] then 0 else 10 * ParseDigits(s[..|s| - 1]) + DigitValue(s[|s| - 1])
  }

  function TrimLeadingSpaces(s: string): string
  {
    if s != [] && s[0] == ' ' then TrimLeadingSpaces(s[1..]) else s
  }

  predicate AllDigits(s: string) {
    forall i :: 0 <= i < |s| ==> IsDigit(s[i])
  }

  /** The number a padded field shows; 0 for a blank field. */
  function ParseField(s: string): int
  {
    var t := TrimLeadingSpaces(s);
    if AllDigits(t) then ParseDigits(t) else -1
  }

  /** What a rendered cell shows: its number and whether it is marked drawn. */
  function ParseCell(s: string): (int, bool)
  {
    if |s| >= |DrawnMark| + |DrawnEnd| && s[..|DrawnMark|] == DrawnMark && s[|s| - |DrawnEnd|..] == DrawnEnd
    then (ParseField(s[|DrawnMark|..|s| - |DrawnEnd|]), true)
    else (ParseField(s), false)
  }

  /** `text.split(sep)` for a one-character separator. */
  function Split(s: string, sep: char): (parts: seq<string>)
    ensures |parts| >= 1
  {
    if s == [] then [""]
    else
      var rest := Split(s[1..], sep);
      if s[0] == sep then [""] + rest else [[s[0]] + rest[0]] + rest[1..]
  }

  // ---------------------------------------------------------------------
  // Properties of the rendering

  lemma {:induction false} NatToStringDigits(n: nat)
    ensures |NatToString(n)| >= 1
    ensures AllDigits(NatToString(n))
    ensures n < 10 <==> |NatToString(n)| == 1
    ensures 10 <= n < 100 ==> |NatToString(n)| == 2
    decreases n
  {
    if n >= 10 {
      NatToStringDigits(n / 10);
    }
  }

  /** Reading the digits back gives the number. */
  lemma {:induction false} NatToStringRoundTrip(n: nat)
    ensures AllDigits(NatToString(n)) && ParseDigits(NatToString(n)) == n
    decreases n
  {
    NatToStringDigits(n);
    if n >= 10 {
      NatToStringRoundTrip(n / 10);
      var s := NatToString(n);
      assert s[..|s| - 1] == NatToString(n / 10);
    }
  }

  lemma TrimDigits(s: string)
    requires |s| >= 1 && IsDigit(s[0])
    ensures TrimLeadingSpaces(s) == s
    ensures TrimLeadingSpaces(" " + s) == s
  {
    assert (" " + s)[1..] == s;
  }

  /** A padded non-negative number reads back as itself. */
  lemma Pad2RoundTrip(n: nat)
    ensures ParseField(Pad2(n)) == n
  {
    NatToStringRoundTrip(n);
    NatToStringDigits(n);
    TrimDigits(NatToString(n));
  }

  /** The rendering of a cell is lossless for the cells a card can hold:
      it shows the cell's number (0 for an empty cell) and is marked exactly
      when that number has been drawn. */
  lemma FormatCellRoundTrip(num: nat, drawn: seq<int>)
    ensures ParseCell(FormatCell(num, drawn)) == (num, num in drawn)
  {
    Pad2RoundTrip(num);
    NatToStringDigits(num);
    var p := Pad2(num);
    if num in drawn {
      var s := DrawnMark + p + DrawnEnd;
      assert s[..|DrawnMark|] == DrawnMark;
      assert s[|s| - |DrawnEnd|..] == DrawnEnd;
      assert s[|DrawnMark|..|s| - |DrawnEnd|] == p;
    } else if num != 0 {
      assert p[0] == ' ' || IsDigit(p[0]);
      if |p| >= |DrawnMark| + |DrawnEnd| {
        assert p[..|DrawnMark|][0] == p[0] != DrawnMark[0];
      }
    } else {
      assert "  "[1..] == " ";
      assert " "[1..] == "";
    }
  }

  /** Undrawn cells of a card, empty or holding a number below 100, are
      exactly two characters wide, so the columns line up. */
  lemma UndrawnCellWidth(num: int, drawn: seq<int>)
    requires 0 <= num < 100
    requires num !in drawn
    ensures |FormatCell(num, drawn)| == 2
  {
    NatToStringDigits(num);
  }

  lemma {:induction false} SplitNoSep(a: string, sep: char)
    requires sep !in a
    ensures Split(a, sep) == [a]
  {
    if a != [] {
      assert a[0] != sep;
      assert sep !in a[1..];
      SplitNoSep(a[1..], sep);
      assert [a[0]] + a[1..] == a;
    }
  }

  lemma {:induction false} SplitAtSep(a: string, b: string, sep: char)
    requires sep !in a
    ensures Split(a + [sep] + b, sep) == [a] + Split(b, sep)
  {
    if a == [] {
      assert (a + [sep] + b)[1..] == b;
    } else {
      assert (a + [sep] + b)[1..] == a[1..] + [sep] + b;
      SplitAtSep(a[1..], b, sep);
      assert [a[0]] + a[1..] == a;
    }
  }

  /** Splitting a join on its one-character separator gives the parts back,
      when no part contains the separator. */
  lemma {:induction false} SplitJoin(parts: seq<string>, sep: char)
    requires |parts| >= 1
    requires forall i :: 0 <= i < |parts| ==> sep !in parts[i]
    ensures Split(Join(parts, [sep]), sep) == parts
  {
    if |parts| == 1 {
      SplitNoSep(parts[0], sep);
    } else {
      SplitJoin(parts[1..], sep);
      SplitAtSep(parts[0], Join(parts[1..], [sep]), sep);
      assert [parts[0]] + parts[1..] == parts;
    }
  }

  lemma {:induction false} NatToStringHasNoNewline(n: nat)
    ensures '\n' !in NatToString(n)
  {
    NatToStringDigits(n);
    var s := NatToString(n);
    assert forall i :: 0 <= i < |s| ==> s[i] != '\n';
  }

  lemma CellHasNoNewline(num: int, drawn: seq<int>)
    ensures '\n' !in FormatCell(num, drawn)
  {
    if num < 0 {
      NatToStringHasNoNewline(-num);
    } else {
      NatToStringHasNoNewline(num);
    }
  }

  lemma {:induction false} JoinHasNoNewline(parts: seq<string>, sep: string)
    requires '\n' !in sep
    requires forall i :: 0 <= i < |parts| ==> '\n' !in parts[i]
    ensures '\n' !in Join(parts, sep)
  {
    if |parts| > 1 {
      JoinHasNoNewline(parts[1..], sep);
    }
  }

  /** The lines of a rendered card are exactly its rendered rows, in order. */
  lemma CardLines(card: Card, drawn: seq<int>)
    requires |card| >= 1
    ensures Split(FormatCard(card, drawn), '\n') == FormatRows(card, drawn)
  {
    var rows := FormatRows(card, drawn);
    forall i | 0 <= i < |rows|
      ensures '\n' !in rows[i]
    {
      var cells := FormatCells(card[i], drawn);
      forall k | 0 <= k < |cells| ensures '\n' !in cells[k] {
        CellHasNoNewline(card[i][k], drawn);
      }
      JoinHasNoNewline(cells, " | ");
    }
    SplitJoin(rows, '\n');
  }
}
