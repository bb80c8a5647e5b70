/** CSV serialisation of result records (lib/export-utils.ts): one header line, then
    one line per record, lines ended by a line feed. A text field is quoted following
    section 2 (rules 6 and 7) of RFC 4180: a field holding a comma, a double quote or a
    line feed is enclosed in double quotes with its own quotes doubled; a carriage
    return alone does not cause quoting. */
module ExportUtils {
  import opened Wrappers
  import opened Types
  import Seqs

  // ---- Field escaping ----

  /** The value holds a comma, a double quote or a line feed. */
  predicate NeedsQuoting(value: string) {
    ',' in value || '"' in value || '\n' in value
  }

  /** `value.replace(/"/g, '""')`. */
  function DoubleQuotes(value: string): (r: string)
    ensures |r| == |value| + multiset(value)['"']
  {
    if value == [] then []
    else
      assert value == [value[0]] + value[1..];
      (if value[0] == '"' then "\"\"" else [value[0]]) + DoubleQuotes(value[1..])
  }

  /** `escapeCsvValue`. */
  function EscapeCsvValue(value: string): (r: string)
    ensures !NeedsQuoting(value) ==> r == value
    ensures NeedsQuoting(value) ==> |r| >= 2 && r[0] == '"' && r[|r| - 1] == '"'
  {
    if value != "" && NeedsQuoting(value) then "\"" + DoubleQuotes(value) + "\"" else value
  }

  /** Reading side of the quoting: every `""` back to `"`. */
  function CollapseQuotes(s: string): string {
    if s == [] then []
    else if |s| >= 2 && s[0] == '"' && s[1] == '"' then "\"" + CollapseQuotes(s[2..])
    else [s[0]] + CollapseQuotes(s[1..])
  }

  /** Reading side of a field: strip the enclosing quotes and collapse the doubled ones. */
  function UnescapeCsvValue(field: string): string {
    if |field| >= 2 && field[0] == '"' && field[|field| - 1] == '"' then CollapseQuotes(field[1..|field| - 1])
    else field
  }

  lemma {:induction false} CollapseDoubled(value: string)
    ensures CollapseQuotes(DoubleQuotes(value)) == value
  {
    if value != [] {
      CollapseDoubled(value[1..]);
      var rest := DoubleQuotes(value[1..]);
      if value[0] == '"' {
        assert DoubleQuotes(value) == "\"\"" + rest;
        assert ("\"\"" + rest)[2..] == rest;
      } else {
        assert DoubleQuotes(value) == [value[0]] + rest;
        assert ([value[0]] + rest)[1..] == rest;
      }
      assert value == [value[0]] + value[1..];
    }
  }

  /** Escaping loses nothing: the reading side recovers every value. */
  lemma EscapeRoundTrip(value: string)
    ensures UnescapeCsvValue(EscapeCsvValue(value)) == value
  {
    if value != "" && NeedsQuoting(value) {
      var inner := DoubleQuotes(value);
      assert ("\"" + inner + "\"")[1..|inner| + 1] == inner;
      CollapseDoubled(value);
    }
  }

  // ---- Number formatting ----

  function DigitChar(d: nat): (c: char)
    requires d < 10
    ensures '0' <= c <= '9'
  {
    ('0' as int + d) as char
  }

  predicate AllDigits(s: string) {
    forall i :: 0 <= i < |s| ==> '0' <= s[i] <= '9'
  }

  /** The number a string of decimal digits denotes. */
  function DigitsValue(s: string): nat
    requires AllDigits(s)
    decreases |s|
  {
    if s == [] then 0 else DigitsValue(s[..|s| - 1]) * 10 + (s[|s| - 1] as int - '0' as int)
  }

  /** Decimal digits of a natural number, with no leading zero. */
  function NatText(n: nat): (r: string)
    ensures |r| > 0 && AllDigits(r)
    ensures r[0] == '0' <==> n == 0
    decreases n
  {
    if n < 10 then [DigitChar(n)] else NatText(n / 10) + [DigitChar(n % 10)]
  }

  /** The digits read back as the number they were written from. */
  lemma {:induction false} NatTextValue(n: nat)
    ensures DigitsValue(NatText(n)) == n
    decreases n
  {
    if n >= 10 {
      NatTextValue(n / 10);
      var t := NatText(n);
      assert t[..|t| - 1] == NatText(n / 10);
    }
  }

  /** `toString` of a coordinate. */
  function IntText(i: int): string {
    if i < 0 then "-" + NatText(-i) else NatText(i)
  }

  /** The fraction digits of `f / 1000`, without trailing zeros. */
  function MilliDigits(f: nat): string
    requires 0 < f < 1000
  {
    var q := f / 10;
    FractionDigits(q / 10, q % 10, f % 10)
  }

  /** Tenths, hundredths and thousandths digits with the trailing zeros dropped. */
  function FractionDigits(d1: nat, d2: nat, d3: nat): string
    requires d1 < 10 && d2 < 10 && d3 < 10
  {
    if d3 != 0 then [DigitChar(d1), DigitChar(d2), DigitChar(d3)]
    else if d2 != 0 then [DigitChar(d1), DigitChar(d2)]
    else [DigitChar(d1)]
  }

  /** The thousandths that one fraction digit at each of `n` places stands for. */
  function PlaceScale(n: nat): nat
    requires 1 <= n <= 3
  {
    if n == 1 then 100 else if n == 2 then 10 else 1
  }

  /** Appending a digit shifts the value one place and adds the digit. */
  lemma DigitsValueSnoc(s: string, d: nat)
    requires AllDigits(s) && d < 10
    ensures AllDigits(s + [DigitChar(d)])
    ensures DigitsValue(s + [DigitChar(d)]) == DigitsValue(s) * 10 + d
  {
    assert (s + [DigitChar(d)])[..|s|] == s;
  }

  /** The three decimal digits of a number below a thousand. */
  lemma ThousandthsDigits(f: nat)
    requires f < 1000
    ensures var q := f / 10; q / 10 < 10 && q % 10 < 10 && f % 10 < 10
    ensures var q := f / 10; f == q / 10 * 100 + q % 10 * 10 + f % 10
  {
    var q := f / 10;
    assert f == q * 10 + f % 10 && q < 100;
    assert q == q / 10 * 10 + q % 10;
  }

  /** Only the digit zero is written `'0'`. */
  lemma DigitCharZero(d: nat)
    requires d < 10
    ensures DigitChar(d) == '0' <==> d == 0
  {
  }

  /** The value of one or two leading digits. */
  lemma LeadingDigitsValue(d1: nat, d2: nat)
    requires d1 < 10 && d2 < 10
    ensures AllDigits([DigitChar(d1)]) && DigitsValue([DigitChar(d1)]) == d1
    ensures AllDigits([DigitChar(d1), DigitChar(d2)]) && DigitsValue([DigitChar(d1), DigitChar(d2)]) == d1 * 10 + d2
  {
    DigitsValueSnoc([], d1);
    assert [] + [DigitChar(d1)] == [DigitChar(d1)];
    DigitsValueSnoc([DigitChar(d1)], d2);
    assert [DigitChar(d1)] + [DigitChar(d2)] == [DigitChar(d1), DigitChar(d2)];
  }

  /** Three fraction digits, not all zero, read back as the thousandths they spell. */
  lemma FractionDigitsValue(d1: nat, d2: nat, d3: nat)
    requires d1 < 10 && d2 < 10 && d3 < 10 && d1 + d2 + d3 != 0
    ensures var t := FractionDigits(d1, d2, d3);
      && 1 <= |t| <= 3 && AllDigits(t) && t[|t| - 1] != '0'
      && DigitsValue(t) * PlaceScale(|t|) == d1 * 100 + d2 * 10 + d3
  {
    LeadingDigitsValue(d1, d2);
    if d3 != 0 {
      var two := [DigitChar(d1), DigitChar(d2)];
      DigitsValueSnoc(two, d3);
      DigitCharZero(d3);
      assert two + [DigitChar(d3)] == FractionDigits(d1, d2, d3);
    } else if d2 != 0 {
      DigitCharZero(d2);
    } else {
      DigitCharZero(d1);
    }
  }

  /** The fraction digits read back as `f` thousandths, with no trailing zero. */
  lemma MilliDigitsValue(f: nat)
    requires 0 < f < 1000
    ensures var t := MilliDigits(f);
      && 1 <= |t| <= 3 && AllDigits(t) && t[|t| - 1] != '0'
      && DigitsValue(t) * PlaceScale(|t|) == f
  {
    var q := f / 10;
    ThousandthsDigits(f);
    FractionDigitsValue(q / 10, q % 10, f % 10);
  }

  /** `Number(metres / 1000).toString()`: kilometres in the shortest decimal form. */
  function KilometresText(metres: nat): string {
    if metres % 1000 == 0 then NatText(metres / 1000)
    else NatText(metres / 1000) + "." + MilliDigits(metres % 1000)
  }

  /** `t` splits at position `k` into a whole part, a point and one to three fraction
      digits with no trailing zero, together denoting `metres / 1000`. */
  predicate DenotesKilometres(t: string, k: nat, metres: nat) {
    && 0 < k && k + 1 < |t| <= k + 4 && t[k] == '.'
    && AllDigits(t[..k]) && AllDigits(t[k + 1..]) && t[|t| - 1] != '0'
    && DigitsValue(t[..k]) * 1000 + DigitsValue(t[k + 1..]) * PlaceScale(|t| - k - 1) == metres
  }

  /** The kilometre text reads back as exactly `metres / 1000`: a whole number when
      that is integral, otherwise the shortest decimal fraction; the whole part has no
      leading zero. */
  lemma KilometresTextValue(metres: nat)
    ensures var t := KilometresText(metres);
      && (metres % 1000 == 0 ==> AllDigits(t) && DigitsValue(t) * 1000 == metres)
      && (metres % 1000 != 0 ==> exists k :: DenotesKilometres(t, k, metres))
      && (t[0] == '0' ==> metres < 1000)
  {
    var t := KilometresText(metres);
    var whole := NatText(metres / 1000);
    NatTextValue(metres / 1000);
    if metres % 1000 != 0 {
      var frac := MilliDigits(metres % 1000);
      MilliDigitsValue(metres % 1000);
      var k := |whole|;
      assert t[..k] == whole && t[k + 1..] == frac;
      assert DenotesKilometres(t, k, metres);
    }
  }

  /** The distance column: empty exactly when the record has no distance. */
  function DistanceText(distance: Option<Distance>): (r: string)
    ensures r == "" <==> distance.None?
  {
    match distance
    case None => ""
    case Some(Finite(m)) => KilometresText(m)
    case Some(Infinite) => "Infinity"
  }

  // ---- Rows ----

  const Headers: seq<string> := ["Name", "Specialty", "Workplace", "Phone", "Address", "Distance (km)", "Latitude", "Longitude"]

  /** The header line, ending in a line feed. */
  function HeaderLine(): string {
    Join(Headers) + "\n"
  }

  /** `fields.join(",")`. */
  function Join(fields: seq<string>): string {
    if fields == [] then ""
    else if |fields| == 1 then fields[0]
    else fields[0] + "," + Join(fields[1..])
  }

  /** One field per header; the distance column is empty exactly when the record has
      no distance. */
  function RowFields(p: MedicalProfessional): (r: seq<string>)
    ensures |r| == |Headers|
    ensures r[5] == "" <==> p.distance.None?
  {
    [EscapeCsvValue(p.name), EscapeCsvValue(p.specialty), EscapeCsvValue(p.workplace),
     EscapeCsvValue(p.phone), EscapeCsvValue(p.address), DistanceText(p.distance),
     IntText(p.latitude), IntText(p.longitude)]
  }

  function CsvRow(p: MedicalProfessional): string {
    Join(RowFields(p)) + "\n"
  }

  /** The data lines of the records, in order. */
  function CsvRows(data: seq<MedicalProfessional>): string {
    Lines(data, CsvRow)
  }

  /** The lines `line` gives the records, one after another. */
  function Lines(data: seq<MedicalProfessional>, line: MedicalProfessional -> string): string
    decreases |data|
  {
    if data == [] then "" else Lines(data[..|data| - 1], line) + line(data[|data| - 1])
  }

  /** What `convertToCSV` returns. */
  function CsvText(data: seq<MedicalProfessional>): string {
    if data == [] then "" else HeaderLine() + CsvRows(data)
  }

  /** `convertToCSV`: the header line, then one line per record. */
  method ConvertToCsv(data: seq<MedicalProfessional>) returns (csv: string)
    ensures csv == CsvText(data)
  {
    if |data| == 0 {
      return "";
    }
    csv := AppendRows(HeaderLine(), data, CsvRow);
  }

  /** The `data.forEach` loop: `csvContent += row.join(",") + "\n"` for each record,
      the callback's line text given as `line`. */
  method AppendRows(csvContent: string, data: seq<MedicalProfessional>, line: MedicalProfessional -> string)
    returns (csv: string)
    ensures csv == csvContent + Lines(data, line)
  {
    csv := csvContent;
    var i := 0;
    while i < |data|
      invariant 0 <= i <= |data|
      invariant csv == csvContent + Lines(data[..i], line)
    {
      LinesStep(data, line, i);
      csv := csv + line(data[i]);
      i := i + 1;
    }
    assert data[..i] == data;
  }

  lemma LinesStep(data: seq<MedicalProfessional>, line: MedicalProfessional -> string, i: nat)
    requires i < |data|
    ensures Lines(data[..i + 1], line) == Lines(data[..i], line) + line(data[i])
  {
    assert data[..i + 1][..i] == data[..i];
  }

  // ---- Reading the text back: fields and lines outside quoted regions ----

  /** What a CSV reader has seen so far: whether it is inside a quoted region, and how
      many field separators and line ends it met outside quoted regions. */
  datatype ScanState = ScanState(quoted: bool, commas: nat, newlines: nat)

  function ScanChar(st: ScanState, c: char): ScanState {
    if c == '"' then st.(quoted := !st.quoted)
    else if st.quoted then st
    else if c == ',' then st.(commas := st.commas + 1)
    else if c == '\n' then st.(newlines := st.newlines + 1)
    else st
  }

  function Scan(s: string, st: ScanState): ScanState
    decreases |s|
  {
    if s == [] then st else Scan(s[1..], ScanChar(st, s[0]))
  }

  lemma {:induction false} ScanConcat(a: string, b: string, st: ScanState)
    ensures Scan(a + b, st) == Scan(b, Scan(a, st))
    decreases |a|
  {
    if a != [] {
      assert (a + b)[1..] == a[1..] + b;
      ScanConcat(a[1..], b, ScanChar(st, a[0]));
    } else {
      assert a + b == b;
    }
  }

  lemma {:induction false} ScanPlain(s: string, st: ScanState)
    requires !NeedsQuoting(s)
    ensures Scan(s, st) == st
    decreases |s|
  {
    if s != [] {
      assert s[0] in s;
      assert forall c :: c in s[1..] ==> c in s;
      ScanPlain(s[1..], st);
    }
  }

  /** Inside a quoted region, a value with its quotes doubled changes nothing. */
  lemma {:induction false} ScanDoubled(value: string, st: ScanState)
    requires st.quoted
    ensures Scan(DoubleQuotes(value), st) == st
    decreases |value|
  {
    if value != [] {
      var head := if value[0] == '"' then "\"\"" else [value[0]];
      ScanConcat(head, DoubleQuotes(value[1..]), st);
      ScanDoubled(value[1..], st);
    }
  }

  /** A field starts and ends outside quotes and never leaves them; its line ends and
      commas are not separators. */
  ghost predicate Balanced(field: string) {
    forall st: ScanState :: !st.quoted ==> Scan(field, st) == st
  }

  lemma EscapedIsBalanced(value: string)
    ensures Balanced(EscapeCsvValue(value))
  {
    forall st: ScanState | !st.quoted
      ensures Scan(EscapeCsvValue(value), st) == st
    {
      if value != "" && NeedsQuoting(value) {
        var inner := DoubleQuotes(value);
        var open := st.(quoted := true);
        ScanConcat("\"" + inner, "\"", st);
        ScanConcat("\"", inner, st);
        ScanDoubled(value, open);
      } else {
        ScanPlain(value, st);
      }
    }
  }

  lemma NumbersArePlain(i: int, distance: Option<Distance>)
    ensures !NeedsQuoting(IntText(i))
    ensures !NeedsQuoting(DistanceText(distance))
  {
    if distance.Some? && distance.value.Finite? {
      var m := distance.value.metres;
      if m % 1000 != 0 {
        var t := NatText(m / 1000) + "." + MilliDigits(m % 1000);
        assert forall k :: 0 <= k < |t| ==> t[k] == '.' || '0' <= t[k] <= '9';
      }
    }
  }

  /** Joining balanced fields with "," yields one separator between each pair. */
  lemma {:induction false} ScanJoin(fields: seq<string>, st: ScanState)
    requires fields != [] && !st.quoted
    requires forall i :: 0 <= i < |fields| ==> Balanced(fields[i])
    ensures Scan(Join(fields), st) == st.(commas := st.commas + |fields| - 1)
    decreases |fields|
  {
    if |fields| > 1 {
      var st1 := Scan(fields[0] + ",", st);
      ScanConcat(fields[0] + ",", Join(fields[1..]), st);
      ScanConcat(fields[0], ",", st);
      assert Scan(fields[0], st) == st;
      ScanJoin(fields[1..], st1);
    }
  }

  /** A field that needs no quoting is balanced. */
  lemma PlainIsBalanced(field: string)
    requires !NeedsQuoting(field)
    ensures Balanced(field)
  {
    forall st: ScanState | !st.quoted
      ensures Scan(field, st) == st
    {
      ScanPlain(field, st);
    }
  }

  /** Every field of a data line is balanced. */
  lemma RowFieldsBalanced(p: MedicalProfessional)
    ensures forall i :: 0 <= i < |RowFields(p)| ==> Balanced(RowFields(p)[i])
  {
    EscapedIsBalanced(p.name);
    EscapedIsBalanced(p.specialty);
    EscapedIsBalanced(p.workplace);
    EscapedIsBalanced(p.phone);
    EscapedIsBalanced(p.address);
    NumbersArePlain(p.latitude, p.distance);
    NumbersArePlain(p.longitude, p.distance);
    PlainIsBalanced(DistanceText(p.distance));
    PlainIsBalanced(IntText(p.latitude));
    PlainIsBalanced(IntText(p.longitude));
  }

  /** Every data line holds 8 fields (7 separators outside quotes) and one line end. */
  lemma ScanRowShape(p: MedicalProfessional, st: ScanState)
    requires !st.quoted
    ensures Scan(CsvRow(p), st) == st.(commas := st.commas + 7, newlines := st.newlines + 1)
  {
    var fields := RowFields(p);
    RowFieldsBalanced(p);
    ScanJoin(fields, st);
    ScanConcat(Join(fields), "\n", st);
  }

  lemma {:induction false} ScanRowsShape(data: seq<MedicalProfessional>, st: ScanState)
    requires !st.quoted
    ensures Scan(CsvRows(data), st) == st.(commas := st.commas + 7 * |data|, newlines := st.newlines + |data|)
    decreases |data|
  {
    if data != [] {
      var init := data[..|data| - 1];
      ScanConcat(CsvRows(init), CsvRow(data[|data| - 1]), st);
      ScanRowsShape(init, st);
      ScanRowShape(data[|data| - 1], Scan(CsvRows(init), st));
    }
  }

  lemma HeadersArePlain()
    ensures forall i :: 0 <= i < |Headers| ==> !NeedsQuoting(Headers[i])
  {
  }

  /** A line of plain fields has one separator between each pair and one line end. */
  lemma ScanPlainLine(fields: seq<string>, st: ScanState)
    requires fields != [] && !st.quoted
    requires forall i :: 0 <= i < |fields| ==> !NeedsQuoting(fields[i])
    ensures Scan(Join(fields) + "\n", st) == st.(commas := st.commas + |fields| - 1, newlines := st.newlines + 1)
  {
    forall i, st': ScanState | 0 <= i < |fields| && !st'.quoted
      ensures Scan(fields[i], st') == st'
    {
      ScanPlain(fields[i], st');
    }
    ScanJoin(fields, st);
    ScanConcat(Join(fields), "\n", st);
  }

  lemma HeaderShape(st: ScanState)
    requires !st.quoted
    ensures Scan(HeaderLine(), st) == st.(commas := st.commas + 7, newlines := st.newlines + 1)
  {
    HeadersArePlain();
    ScanPlainLine(Headers, st);
  }

  /** Read from any state outside quotes, the text of a non-empty list adds 8 fields
      and one line end per line, the header included, and ends outside quotes. */
  lemma CsvScan(data: seq<MedicalProfessional>, st: ScanState)
    requires data != [] && !st.quoted
    ensures Scan(CsvText(data), st)
      == st.(commas := st.commas + 7 * (|data| + 1), newlines := st.newlines + |data| + 1)
  {
    var header, rows := HeaderLine(), CsvRows(data);
    assert CsvText(data) == header + rows;
    ScanConcat(header, rows, st);
    HeaderShape(st);
    ScanRowsShape(data, Scan(header, st));
  }

  /** No records give the empty text; otherwise the header line comes first, and read
      as CSV the text holds one line per record plus the header, each line of exactly
      8 fields, and it ends outside any quoted region. */
  lemma CsvShape(data: seq<MedicalProfessional>)
    ensures data == [] ==> CsvText(data) == ""
    ensures data != [] ==>
      && CsvText(data)[..|HeaderLine()|] == HeaderLine()
      && Scan(CsvText(data), ScanState(false, 0, 0)) == ScanState(false, 7 * (|data| + 1), |data| + 1)
  {
    if data != [] {
      var header, rows := HeaderLine(), CsvRows(data);
      assert CsvText(data) == header + rows;
      Seqs.ConcatPrefix(header, rows);
      CsvScan(data, ScanState(false, 0, 0));
    }
  }
}
