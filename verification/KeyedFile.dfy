/** The flat-keyed files of the cgroup file system: one "key value" pair per line. */
module KeyedFile {
  import opened Kernel
  import opened Text

  // ---------- text ----------

  predicate WordOnly(s: string) {
    forall i | 0 <= i < |s| :: !IsWhitespace(s[i])
  }

  /** Where the first line of `s` ends. */
  function LineLength(s: string): (n: nat)
    ensures n <= |s| && (n < |s| ==> s[n] == '\n')
  {
    if s == "" || s[0] == '\n' then 0 else 1 + LineLength(s[1..])
  }

  function WithoutReturn(line: string): string {
    if line != "" && line[|line| - 1] == '\r' then line[..|line| - 1] else line
  }

  /** `str::lines`: the last line needs no line feed, and a carriage return before a
      line feed belongs to the line end. */
  function Lines(s: string): seq<string>
    decreases |s|
  {
    if s == "" then []
    else
      var n := LineLength(s);
      if n == |s| then [s] else [WithoutReturn(s[..n])] + Lines(s[n + 1..])
  }

  function WordLength(s: string): (n: nat)
    ensures n <= |s|
    ensures s != "" && !IsWhitespace(s[0]) ==> n > 0
  {
    if s == "" || IsWhitespace(s[0]) then 0 else 1 + WordLength(s[1..])
  }

  /** `str::split_whitespace`. */
  function Words(s: string): seq<string>
    decreases |s|
  {
    if s == "" then []
    else if IsWhitespace(s[0]) then Words(s[1..])
    else [s[..WordLength(s)]] + Words(s[WordLength(s)..])
  }

  predicate IsDigit(c: char) {
    '0' <= c <= '9'
  }

  predicate AllDigits(s: string) {
    forall i | 0 <= i < |s| :: IsDigit(s[i])
  }

  function DigitsValue(s: string): nat
    requires forall i | 0 <= i < |s| :: IsDigit(s[i])
  {
    if s == "" then 0
    else
      var last := s[|s| - 1];
      assert IsDigit(last);
      10 * DigitsValue(s[..|s| - 1]) + (last as int - '0' as int)
  }

  /** `parse::<u64>`: an optional plus sign, then at least one digit, within range. */
  function ParseU64(s: string): Option<nat> {
    var digits := if s != "" && s[0] == '+' then s[1..] else s;
    if digits == "" || !AllDigits(digits) then None
    else if DigitsValue(digits) > MAX_U64 then None
    else Some(DigitsValue(digits))
  }

  function Decimal(n: nat): string {
    if n < 10 then [('0' as int + n) as char] else Decimal(n / 10) + [('0' as int + n % 10) as char]
  }

  // ---------- the two readers ----------

  /** One line of a keyed file, after the earlier ones gave `values`. */
  function AddLine(values: Option<map<string, nat>>, line: string): Option<map<string, nat>> {
    var words := Words(line);
    if values.None? || |words| < 2 then values
    else match ParseU64(words[1])
      case None => None
      case Some(value) => Some(values.value[words[0] := value])
  }

  function KeyedValues(lines: seq<string>): Option<map<string, nat>> {
    if lines == [] then Some(map[]) else AddLine(KeyedValues(lines[..|lines| - 1]), lines[|lines| - 1])
  }

  /** `read_keyed_u64`, of a file that could be read or not. */
  method ReadKeyedU64(content: Option<string>) returns (r: Option<map<string, nat>>)
    ensures r == if content.None? then None else KeyedValues(Lines(content.value))
  {
    if content.None? {
      return None;
    }
    var lines := Lines(content.value);
    var values: map<string, nat> := map[];
    for i := 0 to |lines|
      invariant KeyedValues(lines[..i]) == Some(values)
    {
      assert lines[..i + 1][..i] == lines[..i];
      var parts := Words(lines[i]);
      if |parts| < 1 {
        continue;
      }
      if |parts| < 2 {
        continue;
      }
      var value := ParseU64(parts[1]);
      if value.None? {
        ErrorStays(lines, i + 1);
        return None;
      }
      values := values[parts[0] := value.value];
    }
    assert lines[..|lines|] == lines;
    r := Some(values);
  }

  lemma {:induction false} ErrorStays(lines: seq<string>, i: nat)
    requires i <= |lines| && KeyedValues(lines[..i]).None?
    ensures KeyedValues(lines).None?
    decreases |lines|
  {
    if i == |lines| {
      assert lines[..i] == lines;
    } else {
      assert lines[..|lines| - 1][..i] == lines[..i];
      ErrorStays(lines[..|lines| - 1], i);
    }
  }

  /** The first line that starts with "populated" decides. */
  function PopulatedIn(lines: seq<string>): Option<bool> {
    if lines == [] then None
    else
      var words := Words(lines[0]);
      if words == [] || words[0] != "populated" then PopulatedIn(lines[1..])
      else if |words| == 1 then None
      else if words[1] == "1" then Some(true)
      else if words[1] == "0" then Some(false)
      else None
  }

  /** `is_cgroup_populated`. */
  method IsCgroupPopulated(content: Option<string>) returns (r: Option<bool>)
    ensures r == if content.None? then None else PopulatedIn(Lines(content.value))
  {
    if content.None? {
      return None;
    }
    var lines := Lines(content.value);
    for i := 0 to |lines|
      invariant PopulatedIn(lines) == PopulatedIn(lines[i..])
    {
      var parts := Words(lines[i]);
      if |parts| > 0 && parts[0] == "populated" {
        if |parts| == 1 {
          return None;
        }
        return if parts[1] == "1" then Some(true) else if parts[1] == "0" then Some(false) else None;
      }
    }
    r := None;
  }

  // ---------- what is written is read back ----------

  /** A line of a well-formed file, or one with no value: blank or a single word. */
  datatype Row = Entry(key: string, value: nat) | Bare(word: string)
  {
    predicate Valid() {
      match this
      case Entry(key, value) => key != "" && WordOnly(key)
      case Bare(word) => WordOnly(word)
    }

    function Text(): string {
      match this
      case Entry(key, value) => key + " " + Decimal(value)
      case Bare(word) => word
    }
  }

  ghost predicate AllValid(rows: seq<Row>) {
    forall i | 0 <= i < |rows| :: rows[i].Valid()
  }

  function Render(rows: seq<Row>): string {
    if rows == [] then "" else rows[0].Text() + "\n" + Render(rows[1..])
  }

  /** The value in the last entry for `key`, looking from the end of the file. */
  function LastValue(rows: seq<Row>, key: string): Option<nat> {
    if rows == [] then None
    else
      var last := rows[|rows| - 1];
      if last.Entry? && last.key == key then Some(last.value) else LastValue(rows[..|rows| - 1], key)
  }

  function Get(m: map<string, nat>, key: string): Option<nat> {
    if key in m then Some(m[key]) else None
  }

  lemma {:induction false} DecimalIsParsed(n: nat)
    ensures Decimal(n) != "" && forall i | 0 <= i < |Decimal(n)| :: IsDigit(Decimal(n)[i])
    ensures DigitsValue(Decimal(n)) == n
  {
    if n >= 10 {
      DecimalIsParsed(n / 10);
      var d := [('0' as int + n % 10) as char];
      assert (Decimal(n / 10) + d)[..|Decimal(n / 10) + d| - 1] == Decimal(n / 10);
    } else {
      assert Decimal(n)[..0] == "";
    }
  }

  lemma ParseDecimal(n: nat)
    ensures ParseU64(Decimal(n)) == if n <= MAX_U64 then Some(n) else None
    ensures Decimal(n) != "" && WordOnly(Decimal(n))
  {
    DecimalIsParsed(n);
    assert IsDigit(Decimal(n)[0]);
  }

  lemma {:induction false} WordEnds(word: string, rest: string)
    requires WordOnly(word) && (rest == "" || IsWhitespace(rest[0]))
    ensures WordLength(word + rest) == |word|
  {
    if word == "" {
      assert word + rest == rest;
    } else {
      assert (word + rest)[1..] == word[1..] + rest;
      WordEnds(word[1..], rest);
    }
  }

  lemma FirstWord(word: string, rest: string)
    requires word != "" && WordOnly(word) && (rest == "" || IsWhitespace(rest[0]))
    ensures Words(word + rest) == [word] + Words(rest)
  {
    WordEnds(word, rest);
    assert (word + rest)[..|word|] == word && (word + rest)[|word|..] == rest;
  }

  lemma WordsOfRow(row: Row)
    requires row.Valid()
    ensures match row
            case Entry(key, value) => Words(row.Text()) == [key, Decimal(value)]
            case Bare(word) => Words(row.Text()) == (if word == "" then [] else [word])
  {
    match row
    case Entry(key, value) =>
      ParseDecimal(value);
      var digits := Decimal(value);
      FirstWord(key, " " + digits);
      assert key + " " + digits == key + (" " + digits);
      assert (" " + digits)[1..] == digits;
      FirstWord(digits, "");
      assert digits + "" == digits;
    case Bare(word) =>
      if word != "" {
        FirstWord(word, "");
        assert word + "" == word;
      }
  }

  lemma {:induction false} LineEnds(line: string, rest: string)
    requires forall i | 0 <= i < |line| :: line[i] != '\n'
    ensures LineLength(line + "\n" + rest) == |line|
  {
    var s := line + "\n" + rest;
    if line == "" {
    } else {
      assert s[1..] == line[1..] + "\n" + rest;
      LineEnds(line[1..], rest);
    }
  }

  lemma RowIsOneLine(row: Row, rest: string)
    requires row.Valid()
    ensures Lines(row.Text() + "\n" + rest) == [row.Text()] + Lines(rest)
  {
    var line := row.Text();
    if row.Entry? {
      ParseDecimal(row.value);
    }
    assert forall i | 0 <= i < |line| :: line[i] != '\n' && line[i] != '\r';
    LineEnds(line, rest);
    var s := line + "\n" + rest;
    assert s[..|line|] == line && s[|line| + 1..] == rest;
  }

  /** Some value does not fit into 64 bits. */
  ghost predicate TooLarge(rows: seq<Row>) {
    exists i :: 0 <= i < |rows| && rows[i].Entry? && rows[i].value >= 0x1_0000_0000_0000_0000
  }

  function Texts(rows: seq<Row>): seq<string> {
    seq(|rows|, i requires 0 <= i < |rows| => rows[i].Text())
  }

  lemma {:induction false} RenderedLines(rows: seq<Row>)
    requires AllValid(rows)
    ensures Lines(Render(rows)) == Texts(rows)
  {
    if rows == [] {
    } else {
      RenderedLines(rows[1..]);
      RowIsOneLine(rows[0], Render(rows[1..]));
      FirstText(rows);
    }
  }

  lemma FirstText(rows: seq<Row>)
    requires rows != []
    ensures Texts(rows) == [rows[0].Text()] + Texts(rows[1..])
  {
  }

  lemma KeyedRow(values: Option<map<string, nat>>, row: Row)
    requires row.Valid()
    ensures AddLine(values, row.Text()) ==
            if values.None? || row.Bare? then values
            else if row.value > MAX_U64 then None else Some(values.value[row.key := row.value])
  {
    WordsOfRow(row);
    if row.Entry? {
      ParseDecimal(row.value);
    }
  }

  lemma {:induction false} KeyedValuesOfTexts(rows: seq<Row>)
    requires AllValid(rows)
    ensures var r := KeyedValues(Texts(rows));
      && (r.None? <==> TooLarge(rows))
      && (r.Some? ==> forall key :: Get(r.value, key) == LastValue(rows, key))
  {
    if rows == [] {
    } else {
      var front, last := rows[..|rows| - 1], rows[|rows| - 1];
      KeyedValuesOfTexts(front);
      assert Texts(rows)[..|rows| - 1] == Texts(front);
      KeyedRow(KeyedValues(Texts(front)), last);
      assert TooLarge(rows) <==> TooLarge(front) || (last.Entry? && last.value > MAX_U64) by {
        if TooLarge(front) {
          var i :| 0 <= i < |front| && front[i].Entry? && front[i].value > MAX_U64;
          assert rows[i] == front[i];
        }
      }
    }
  }

  /** Reading a rendered file fails exactly if some value does not fit into 64 bits;
      otherwise it gives each key the value of its last entry, and rows without a
      value make no difference. */
  lemma {:induction false} KeyedRoundTrip(rows: seq<Row>)
    requires AllValid(rows)
    ensures var r := KeyedValues(Lines(Render(rows)));
      && (r.None? <==> TooLarge(rows))
      && (r.Some? ==> forall key :: Get(r.value, key) == LastValue(rows, key))
  {
    RenderedLines(rows);
    KeyedValuesOfTexts(rows);
  }

  /** The value in the first entry for `key`. */
  function FirstValue(rows: seq<Row>, key: string): Option<nat> {
    if rows == [] then None
    else if rows[0].Entry? && rows[0].key == key then Some(rows[0].value)
    else FirstValue(rows[1..], key)
  }

  function Flag(value: Option<nat>): Option<bool> {
    if value == Some(1) then Some(true) else if value == Some(0) then Some(false) else None
  }

  lemma DecimalFlag(value: nat)
    ensures (Decimal(value) == "1" <==> value == 1) && (Decimal(value) == "0" <==> value == 0)
  {
    DecimalIsParsed(value);
    DecimalIsParsed(0);
    DecimalIsParsed(1);
  }

  lemma PopulatedInRow(row: Row, rest: seq<string>)
    requires row.Valid() && row != Bare("populated")
    ensures PopulatedIn([row.Text()] + rest) ==
            if row.Entry? && row.key == "populated" then Flag(Some(row.value)) else PopulatedIn(rest)
  {
    WordsOfRow(row);
    assert ([row.Text()] + rest)[1..] == rest;
    if row.Entry? {
      DecimalFlag(row.value);
    }
  }

  lemma {:induction false} PopulatedInTexts(rows: seq<Row>)
    requires AllValid(rows) && forall i | 0 <= i < |rows| :: rows[i] != Bare("populated")
    ensures PopulatedIn(Texts(rows)) == Flag(FirstValue(rows, "populated"))
  {
    if rows == [] {
    } else {
      PopulatedInTexts(rows[1..]);
      FirstText(rows);
      PopulatedInRow(rows[0], Texts(rows[1..]));
    }
  }

  /** The populated flag is read back from a rendered file: unlike the keyed reader,
      which keeps the last, it takes the first entry, and any other value is an error. */
  lemma {:induction false} PopulatedRoundTrip(rows: seq<Row>)
    requires AllValid(rows) && forall i | 0 <= i < |rows| :: rows[i] != Bare("populated")
    ensures PopulatedIn(Lines(Render(rows))) == Flag(FirstValue(rows, "populated"))
  {
    RenderedLines(rows);
    PopulatedInTexts(rows);
  }

  // ---------- every text, well-formed or not ----------

  function Zeros(k: nat): string {
    seq(k, _ => '0')
  }

  lemma {:induction false} DigitsShape(s: string)
    requires s != "" && AllDigits(s)
    ensures var d := Decimal(DigitsValue(s));
            |d| <= |s| && s == Zeros(|s| - |d|) + d
  {
    var n := |s| - 1;
    assert s == s[..n] + [s[n]];
    if n == 0 {
      assert s[..0] == "" && Zeros(0) == "";
    } else {
      DigitsShape(s[..n]);
      if DigitsValue(s[..n]) == 0 {
        assert Zeros(n) == s[..n];
      }
    }
  }

  lemma {:induction false} ZerosAreNothing(k: nat, s: string)
    requires AllDigits(s)
    ensures AllDigits(Zeros(k) + s) && DigitsValue(Zeros(k) + s) == DigitsValue(s)
  {
    var z := Zeros(k) + s;
    if s == "" {
      if k > 0 {
        assert z[..|z| - 1] == Zeros(k - 1) + "";
        ZerosAreNothing(k - 1, "");
      }
    } else {
      assert z[..|z| - 1] == Zeros(k) + s[..|s| - 1];
      ZerosAreNothing(k, s[..|s| - 1]);
    }
  }

  function WithoutPlus(s: string): string {
    if s != "" && s[0] == '+' then s[1..] else s
  }

  lemma ParsedDigits(s: string)
    ensures var d := WithoutPlus(s);
            ParseU64(s) == if d == "" || !AllDigits(d) || DigitsValue(d) >= 0x1_0000_0000_0000_0000 then None
                           else Some(DigitsValue(d))
  {
  }

  lemma DecimalParsed(d: string, n: nat, k: nat)
    requires d == Zeros(k) + Decimal(n)
    ensures d != "" && AllDigits(d) && DigitsValue(d) == n
  {
    DecimalIsParsed(n);
    ZerosAreNothing(k, Decimal(n));
  }

  lemma DigitsOrPlus(s: string)
    ensures s == WithoutPlus(s) || s == "+" + WithoutPlus(s)
  {
  }

  /** What is parsed as a number, of all strings: its decimal digits with any number of
      zeros and perhaps a plus sign before them, if it fits into 64 bits. */
  lemma ParseExactly(s: string, n: nat)
    ensures ParseU64(s) == Some(n) <==>
              && n < 0x1_0000_0000_0000_0000
              && exists k: nat :: s == Zeros(k) + Decimal(n) || s == "+" + (Zeros(k) + Decimal(n))
  {
    ParsedDigits(s);
    DigitsOrPlus(s);
    if ParseU64(s) == Some(n) {
      DigitsShape(WithoutPlus(s));
      var k: nat := |WithoutPlus(s)| - |Decimal(n)|;
      assert WithoutPlus(s) == Zeros(k) + Decimal(n);
    }
    if k: nat :| s == Zeros(k) + Decimal(n) || s == "+" + (Zeros(k) + Decimal(n)) {
      var d := Zeros(k) + Decimal(n);
      DecimalParsed(d, n, k);
      assert IsDigit(d[0]) && ("+" + d)[1..] == d;
      assert WithoutPlus(s) == d;
    }
  }

  lemma LineIsCut(line: string, rest: string)
    requires forall i | 0 <= i < |line| :: line[i] != '\n'
    ensures LineLength(line) == |line|
    ensures Lines(line + "\n" + rest) == [WithoutReturn(line)] + Lines(rest)
  {
    var s := line + "\n" + rest;
    LineEnds(line, rest);
    assert s[..|line|] == line && s[|line| + 1..] == rest;
    LastLineEnds(line);
  }

  lemma {:induction false} LastLineEnds(line: string)
    requires forall i | 0 <= i < |line| :: line[i] != '\n'
    ensures LineLength(line) == |line|
  {
    if line == "" {
    } else {
      LastLineEnds(line[1..]);
    }
  }

  /** A line ends with a line feed, with a carriage return and a line feed, or with the
      text. */
  lemma LinesExactly(line: string, rest: string)
    requires forall i | 0 <= i < |line| :: line[i] != '\n'
    ensures Lines("") == []
    ensures line != "" ==> Lines(line) == [line]
    ensures Lines(line + "\r\n" + rest) == [line] + Lines(rest)
    ensures line == "" || line[|line| - 1] != '\r' ==> Lines(line + "\n" + rest) == [line] + Lines(rest)
  {
    LineIsCut(line, rest);
    ReturnIsDropped(line, rest);
  }

  lemma ReturnIsDropped(line: string, rest: string)
    requires forall i | 0 <= i < |line| :: line[i] != '\n'
    ensures Lines(line + "\r\n" + rest) == [line] + Lines(rest)
  {
    var whole := line + "\r";
    LineIsCut(whole, rest);
    assert line + "\r\n" + rest == whole + "\n" + rest;
    assert WithoutReturn(whole) == whole[..|whole| - 1] == line;
  }

  /** White space before, between and after the words makes no difference. */
  lemma {:induction false} SpaceIsSkipped(space: string, s: string)
    requires forall i | 0 <= i < |space| :: IsWhitespace(space[i])
    ensures Words(space + s) == Words(s)
  {
    if space == "" {
      assert space + s == s;
    } else {
      assert (space + s)[1..] == space[1..] + s;
      SpaceIsSkipped(space[1..], s);
    }
  }

  /** The line has a key and a value; further words are ignored. */
  predicate HasValue(line: string) {
    |Words(line)| >= 2
  }

  /** Line `i` is the last with a value for `key`. */
  ghost predicate IsLastFor(lines: seq<string>, key: string, i: nat) {
    && i < |lines| && HasValue(lines[i]) && Words(lines[i])[0] == key
    && forall j | i < j < |lines| && HasValue(lines[j]) :: Words(lines[j])[0] != key
  }

  /** Of all texts: the keyed reader fails exactly if some line with a value has one that
      is no number, and otherwise has exactly the keys of the lines with a value. */
  lemma {:induction false} KeyedFailsExactly(lines: seq<string>)
    ensures var r := KeyedValues(lines);
      && (r.None? <==> exists i :: 0 <= i < |lines| && HasValue(lines[i]) && ParseU64(Words(lines[i])[1]).None?)
      && (r.Some? ==>
            forall key :: key in r.value <==>
              exists i :: 0 <= i < |lines| && HasValue(lines[i]) && Words(lines[i])[0] == key)
  {
    if lines == [] {
    } else {
      var n := |lines| - 1;
      KeyedFailsExactly(lines[..n]);
      assert forall i | 0 <= i < n :: lines[..n][i] == lines[i];
    }
  }

  /** And each key has the value of the last line for it. */
  lemma {:induction false} KeyedValueExactly(lines: seq<string>, key: string, i: nat)
    requires KeyedValues(lines).Some? && IsLastFor(lines, key, i)
    ensures key in KeyedValues(lines).value
    ensures ParseU64(Words(lines[i])[1]) == Some(KeyedValues(lines).value[key])
    decreases |lines|
  {
    var n := |lines| - 1;
    if i == n {
    } else {
      assert lines[..n][i] == lines[i];
      KeyedValueExactly(lines[..n], key, i);
    }
  }

  /** Of all texts: the first line whose first word is "populated" decides, with exactly
      1 and 0 as answers. */
  lemma {:induction false} PopulatedExactly(lines: seq<string>) returns (i: nat)
    ensures i <= |lines| && forall j | 0 <= j < i :: Words(lines[j]) == [] || Words(lines[j])[0] != "populated"
    ensures i == |lines| ==> PopulatedIn(lines) == None
    ensures i < |lines| ==>
              var words := Words(lines[i]);
              && words != [] && words[0] == "populated"
              && (PopulatedIn(lines) == Some(true) <==> |words| >= 2 && words[1] == "1")
              && (PopulatedIn(lines) == Some(false) <==> |words| >= 2 && words[1] == "0")
  {
    if lines == [] || (Words(lines[0]) != [] && Words(lines[0])[0] == "populated") {
      return 0;
    }
    i := PopulatedExactly(lines[1..]);
    i := i + 1;
  }
}
