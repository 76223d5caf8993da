/** The text of the report: the fixed header line, and one row per file made
    of the file name and its result values joined with tabs
    (`"#{file}\t#{res.flatten.join "\t"}"`). */
module ReportFormat {
  import opened Measure

  const Tab: char := '\t'

  /** The seven column names of the header. */
  const Columns: seq<string> :=
    ["#File", "PNG-Size", "WebP-Size", "WebP-DSSIM", "JPEG-Size", "JPEG-DSSIM", "JPEG-Quality"]

  /** The header line the report starts with: the column names joined with
      tabs, "#File<TAB>PNG-Size<TAB>WebP-Size<TAB>WebP-DSSIM<TAB>JPEG-Size<TAB>JPEG-DSSIM<TAB>JPEG-Quality". */
  const Header: string := Join(Columns)

  predicate IsDigit(c: char) { '0' <= c <= '9' }

  predicate NoTab(s: string) { forall k :: 0 <= k < |s| ==> s[k] != Tab }

  /** Integer#to_s on a non-negative integer: decimal digits without
      leading zeros. */
  function NatToString(n: nat): (s: string)
    ensures |s| >= 1 && (forall k :: 0 <= k < |s| ==> IsDigit(s[k]))
    ensures |s| > 1 ==> s[0] != '0'
    ensures n < 10 <==> |s| == 1
    decreases n
  {
    if n < 10 then [('0' as int + n) as char]
    else NatToString(n / 10) + [('0' as int + n % 10) as char]
  }

  /** The value of a string of decimal digits. */
  function DigitsValue(s: string): nat
    requires forall k :: 0 <= k < |s| ==> IsDigit(s[k])
    decreases |s|
  {
    if s == [] then 0
    else
      assert IsDigit(s[|s| - 1]);
      DigitsValue(s[..|s| - 1]) * 10 + (s[|s| - 1] as int - '0' as int)
  }

  lemma {:induction false} NatToStringRoundTrip(n: nat)
    ensures DigitsValue(NatToString(n)) == n
    decreases n
  {
    var s := NatToString(n);
    if n >= 10 {
      NatToStringRoundTrip(n / 10);
      assert s[..|s| - 1] == NatToString(n / 10);
    }
  }

  /** Integer#to_s: an optional minus sign, then the digits of the magnitude. */
  function IntToString(i: int): (s: string)
    ensures |s| >= 1 && NoTab(s)
    ensures s[0] == '-' <==> i < 0
  {
    if i < 0 then "-" + NatToString(-i) else NatToString(i)
  }

  /** Reads back what IntToString writes. */
  function ParseInt(s: string): int
    requires |s| >= 1
    requires forall k :: (if s[0] == '-' then 1 else 0) <= k < |s| ==> IsDigit(s[k])
  {
    if s[0] == '-' then -(DigitsValue(s[1..]) as int) else DigitsValue(s)
  }

  lemma IntToStringRoundTrip(i: int)
    ensures ParseInt(IntToString(i)) == i
  {
    if i < 0 {
      NatToStringRoundTrip(-i);
      assert IntToString(i)[1..] == NatToString(-i);
    } else {
      NatToStringRoundTrip(i);
    }
  }

  /** How a result value is written by `join`: Integer#to_s, Float#to_s
      (supplied from outside), and nil as the empty string. */
  function ValueToString(v: Value, floatToS: real -> string): string {
    match v
    case Int(i) => IntToString(i)
    case Float(x) => floatToS(x)
    case Nil => ""
  }

  /** The values as `join` writes them, one string each. */
  function ValuesToStrings(vs: seq<Value>, floatToS: real -> string): seq<string> {
    seq(|vs|, k requires 0 <= k < |vs| => ValueToString(vs[k], floatToS))
  }

  /** Array#join with a tab separator. */
  function Join(fields: seq<string>): string
    decreases |fields|
  {
    if |fields| == 0 then ""
    else if |fields| == 1 then fields[0]
    else fields[0] + [Tab] + Join(fields[1..])
  }

  /** Splits a line at every tab: the inverse of Join. */
  function Split(s: string): (r: seq<string>)
    ensures |r| >= 1
    decreases |s|
  {
    if s == [] then [""]
    else if s[0] == Tab then [""] + Split(s[1..])
    else
      var rest := Split(s[1..]);
      [[s[0]] + rest[0]] + rest[1..]
  }

  lemma {:induction false} SplitNoTab(a: string)
    requires NoTab(a)
    ensures Split(a) == [a]
    decreases |a|
  {
    if a != [] {
      assert a[0] != Tab;
      SplitNoTab(a[1..]);
      assert [a[0]] + a[1..] == a;
    }
  }

  lemma {:induction false} SplitAtFirstTab(a: string, b: string)
    requires NoTab(a)
    ensures Split(a + [Tab] + b) == [a] + Split(b)
    decreases |a|
  {
    if a == [] {
      assert a + [Tab] + b == [Tab] + b;
    } else {
      var line := a + [Tab] + b;
      assert line[0] == a[0] != Tab;
      SplitAtFirstTab(a[1..], b);
      assert line[1..] == a[1..] + [Tab] + b;
      assert [a[0]] + a[1..] == a;
    }
  }

  /** Splitting a tab-joined line gives back its fields, as long as no field
      holds a tab itself. */
  lemma {:induction false} SplitJoin(fields: seq<string>)
    requires |fields| >= 1
    requires forall k :: 0 <= k < |fields| ==> NoTab(fields[k])
    ensures Split(Join(fields)) == fields
    decreases |fields|
  {
    if |fields| == 1 {
      SplitNoTab(fields[0]);
    } else {
      SplitJoin(fields[1..]);
      SplitAtFirstTab(fields[0], Join(fields[1..]));
      assert fields == [fields[0]] + fields[1..];
    }
  }

  /** The header splits into the seven column names. */
  lemma HeaderColumns()
    ensures Split(Header) == Columns
  {
    forall k | 0 <= k < |Columns| ensures NoTab(Columns[k]) {
    }
    SplitJoin(Columns);
  }

  /** One report row: the file name, a tab, and the values joined with tabs. */
  function RowLine(file: string, cells: seq<Value>, floatToS: real -> string): string {
    file + [Tab] + Join(ValuesToStrings(cells, floatToS))
  }

  /** A row of six values lines up with the seven header columns: its first
      field is the file name and the others are the values as written. */
  lemma RowLineColumns(file: string, cells: seq<Value>, floatToS: real -> string)
    requires |cells| == 6 && NoTab(file)
    requires forall k :: 0 <= k < |cells| && cells[k].Float? ==> NoTab(floatToS(cells[k].x))
    ensures Split(RowLine(file, cells, floatToS)) == [file] + ValuesToStrings(cells, floatToS)
    ensures |Split(RowLine(file, cells, floatToS))| == |Columns|
  {
    var fields := ValuesToStrings(cells, floatToS);
    forall k | 0 <= k < |fields| ensures NoTab(fields[k]) {
      assert fields[k] == ValueToString(cells[k], floatToS);
    }
    SplitJoin(fields);
    SplitAtFirstTab(file, Join(fields));
  }
}
