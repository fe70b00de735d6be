/** The high-score table of Flappybird_Game/main.py (load_records / save_records).
    The records file is modelled as the sequence of its lines (None when the file
    does not exist); the file system itself is not modelled. */
module HighScores {

  datatype Option<+T> = None | Some(value: T)
  datatype Result<+T, +E> = Success(value: T) | Failure(error: E)

  /** One entry of the table: a player name and a score. */
  datatype Record = Record(name: string, score: int)

  /** Why one line could not be read back: the tuple unpack of `name, score`
      saw a number of comma-separated fields other than two, or `int(score)` failed. */
  datatype LineError = FieldCount(count: nat) | BadScore(text: string)

  /** The first line (0-based) that made load_records raise, and why. */
  datatype LoadError = LoadError(line: nat, reason: LineError)

  /** How many records save_records keeps. */
  const MAX_RECORDS: nat := 5

  // ---------------------------------------------------------------------------
  // Python's str.strip(): whitespace as str.isspace() defines it; int() trims a smaller set

  predicate IsSpace(c: char) {
    ('\U{9}' <= c <= '\U{D}') || ('\U{1C}' <= c <= '\U{20}') || c == '\U{85}' || c == '\U{A0}'
    || c == '\U{1680}' || ('\U{2000}' <= c <= '\U{200A}') || c == '\U{2028}' || c == '\U{2029}'
    || c == '\U{202F}' || c == '\U{205F}' || c == '\U{3000}'
  }

  /** The whitespace int() skips around its digits: str.isspace() without the ASCII
      separators U+001C to U+001F, which CPython's int() reads as ASCII and rejects. */
  predicate IsIntSpace(c: char) {
    IsSpace(c) && !('\U{1C}' <= c <= '\U{1F}')
  }

  /** s without its leading characters in the set space. */
  function StripLeft(s: string, space: char -> bool): (r: string)
    ensures |r| <= |s| && r == s[|s| - |r|..]
    ensures forall k :: 0 <= k < |s| - |r| ==> space(s[k])
    ensures r == [] || !space(r[0])
  {
    if |s| > 0 && space(s[0]) then StripLeft(s[1..], space) else s
  }

  /** s without its trailing characters in the set space. */
  function StripRight(s: string, space: char -> bool): (r: string)
    ensures |r| <= |s| && r == s[..|r|]
    ensures forall k :: |r| <= k < |s| ==> space(s[k])
    ensures r == [] || !space(r[|r| - 1])
  {
    if |s| > 0 && space(s[|s| - 1]) then StripRight(s[..|s| - 1], space) else s
  }

  /** str.strip() with no argument. */
  function Strip(s: string): string {
    StripRight(StripLeft(s, IsSpace), IsSpace)
  }

  /** The trimming int() does before it reads a sign and digits. */
  function IntStrip(s: string): string {
    StripRight(StripLeft(s, IsIntSpace), IsIntSpace)
  }

  // ---------------------------------------------------------------------------
  // Python's str.split(',')

  /** Number of commas in s. */
  function Commas(s: string): nat {
    if s == [] then 0 else (if s[0] == ',' then 1 else 0) + Commas(s[1..])
  }

  /** Inverse of split: the fields glued back with commas. */
  function Join(fields: seq<string>): string
    requires |fields| > 0
  {
    if |fields| == 1 then fields[0] else fields[0] + "," + Join(fields[1..])
  }

  /** s.split(','): the comma-free pieces between commas; never empty. */
  function Split(s: string): (fields: seq<string>)
    ensures |fields| == Commas(s) + 1
    ensures forall k :: 0 <= k < |fields| ==> ',' !in fields[k]
    ensures Join(fields) == s
  {
    if s == [] then [""]
    else
      var rest := Split(s[1..]);
      if s[0] == ',' then [""] + rest
      else [[s[0]] + rest[0]] + rest[1..]
  }

  lemma {:induction false} SplitNoComma(s: string)
    requires ',' !in s
    ensures Split(s) == [s]
  {
    if s != [] {
      assert ',' !in s[1..] by {
        forall k | 0 <= k < |s[1..]| ensures s[1..][k] != ',' { assert s[1..][k] == s[k + 1]; }
      }
      SplitNoComma(s[1..]);
    }
  }

  /** Splitting `a,b` gives back the two comma-free fields. */
  lemma {:induction false} SplitTwo(a: string, b: string)
    requires ',' !in a && ',' !in b
    ensures Split(a + "," + b) == [a, b]
  {
    if a == [] {
      assert a + "," + b == [','] + b;
      assert (a + "," + b)[1..] == b;
      SplitNoComma(b);
    } else {
      var s := a + "," + b;
      assert s[0] == a[0] && s[1..] == a[1..] + "," + b;
      assert ',' !in a[1..] by {
        forall k | 0 <= k < |a[1..]| ensures a[1..][k] != ',' { assert a[1..][k] == a[k + 1]; }
      }
      SplitTwo(a[1..], b);
      assert [a[0]] + a[1..] == a;
    }
  }

  // ---------------------------------------------------------------------------
  // Python's int() on a str, and str() on an int

  predicate IsDigit(c: char) { '0' <= c <= '9' }

  function DigitValue(c: char): nat
    requires IsDigit(c)
  {
    (c as int) - ('0' as int)
  }

  function DigitChar(d: nat): (c: char)
    requires d < 10
    ensures IsDigit(c) && DigitValue(c) == d
  {
    ('0' as int + d) as char
  }

  /** A run of ASCII digits in which single underscores may separate digits. */
  predicate IsDigitRun(s: string) {
    |s| > 0 && IsDigit(s[0]) &&
    forall i :: 0 <= i < |s| ==> IsDigit(s[i]) || (s[i] == '_' && i + 1 < |s| && IsDigit(s[i + 1]))
  }

  /** The decimal value of the digits of s; anything else (the underscores) is skipped. */
  function DigitsValue(s: string): nat {
    if s == [] then 0
    else if IsDigit(s[|s| - 1]) then 10 * DigitsValue(s[..|s| - 1]) + DigitValue(s[|s| - 1])
    else DigitsValue(s[..|s| - 1])
  }

  /** int(s) for base 10: surrounding whitespace, an optional sign, then a digit run. */
  function ParseInt(s: string): Option<int> {
    var t := IntStrip(s);
    if |t| > 0 && (t[0] == '-' || t[0] == '+') then
      if IsDigitRun(t[1..]) then
        var v: int := DigitsValue(t[1..]);
        Some(if t[0] == '-' then -v else v)
      else None
    else if IsDigitRun(t) then Some(DigitsValue(t))
    else None
  }

  /** str(n) for n >= 0: decimal digits without leading zeros. */
  function NatToString(n: nat): (s: string)
    ensures |s| > 0 && forall i :: 0 <= i < |s| ==> IsDigit(s[i])
  {
    if n < 10 then [DigitChar(n)] else NatToString(n / 10) + [DigitChar(n % 10)]
  }

  /** str(n): a minus sign for negative numbers, then the digits of |n|. */
  function IntToString(n: int): string {
    if n < 0 then "-" + NatToString(-n) else NatToString(n)
  }

  lemma {:induction false} NatToStringValue(n: nat)
    ensures DigitsValue(NatToString(n)) == n
  {
    var s := NatToString(n);
    if n >= 10 {
      NatToStringValue(n / 10);
      assert s[..|s| - 1] == NatToString(n / 10);
    }
  }

  /** int(str(n)) == n. */
  lemma {:induction false} IntRoundTrip(n: int)
    ensures ParseInt(IntToString(n)) == Some(n)
  {
    var s := IntToString(n);
    var d := NatToString(if n < 0 then -n else n);
    NatToStringValue(if n < 0 then -n else n);
    IntToStringShape(n);
    NoLeadingSpace(s, IsIntSpace);
    NoTrailingSpace(s, IsIntSpace);
    if n < 0 {
      assert s[1..] == d;
    }
  }

  // ---------------------------------------------------------------------------
  // One line of the records file

  /** One record as save_records writes it: `name,score` and a newline. */
  function FormatRecord(r: Record): string {
    r.name + "," + IntToString(r.score) + "\n"
  }

  /** One line as load_records reads it: strip, split on commas, unpack two fields, int the second. */
  function ParseLine(line: string): Result<Record, LineError> {
    var fields := Split(Strip(line));
    if |fields| != 2 then Failure(FieldCount(|fields|))
    else match ParseInt(fields[1])
      case None => Failure(BadScore(fields[1]))
      case Some(v) => Success(Record(fields[0], v))
  }

  /** The unpack fails exactly when the stripped line has other than one comma; otherwise
      the line is `name,text` and the score is int(text). */
  lemma {:induction false} ParseLineFields(line: string)
    ensures var r := ParseLine(line);
      && (r.Failure? && r.error.FieldCount? <==> Commas(Strip(line)) != 1)
      && (r.Failure? && r.error.FieldCount? ==> r.error.count == Commas(Strip(line)) + 1)
      && (r.Success? ==> exists text :: Strip(line) == r.value.name + "," + text
                                        && ParseInt(text) == Some(r.value.score))
  {
    var fields := Split(Strip(line));
    if |fields| == 2 {
      assert Join(fields) == fields[0] + "," + Join(fields[1..]);
    }
  }

  /** str.strip() keeps an ASCII separator (U+001C to U+001F) that starts the score
      text, and int() then rejects it: such a line makes load_records raise. */
  lemma {:induction false} SeparatorInScore(name: string, score: string)
    requires ValidName(name) && ',' !in score
    requires |score| > 0 && '\U{1C}' <= score[0] <= '\U{1F}' && IsDigit(score[|score| - 1])
    ensures ParseLine(name + "," + score + "\n") == Failure(BadScore(score))
  {
    StripLine(name, score);
    SplitTwo(name, score);
    IntRejectsSeparator(score);
  }

  /** int() of a text that starts with an ASCII separator fails. */
  lemma {:induction false} IntRejectsSeparator(score: string)
    requires |score| > 0 && '\U{1C}' <= score[0] <= '\U{1F}'
    requires IsDigit(score[|score| - 1])
    ensures ParseInt(score) == None
  {
    NoLeadingSpace(score, IsIntSpace);
    NoTrailingSpace(score, IsIntSpace);
    assert IntStrip(score) == score;
  }

  /** A name that survives the file: no comma (it would add a field) and no
      leading whitespace (strip would remove it). */
  predicate ValidName(name: string) {
    ',' !in name && (name == [] || !IsSpace(name[0]))
  }

  /** Reading back a written line gives the same record. */
  lemma {:induction false} LineRoundTrip(r: Record)
    requires ValidName(r.name)
    ensures ParseLine(FormatRecord(r)) == Success(r)
  {
    var digits := IntToString(r.score);
    var body := r.name + "," + digits;
    assert FormatRecord(r) == body + "\n";
    IntToStringShape(r.score);
    StripLine(r.name, digits);
    SplitTwo(r.name, digits);
    IntRoundTrip(r.score);
  }

  lemma {:induction false} IntToStringShape(n: int)
    ensures |IntToString(n)| > 0 && ',' !in IntToString(n)
    ensures !IsSpace(IntToString(n)[0]) && IsDigit(IntToString(n)[|IntToString(n)| - 1])
  {
    var d := NatToString(if n < 0 then -n else n);
    if n < 0 {
      assert IntToString(n) == "-" + d;
      assert forall k :: 0 <= k < |"-" + d| ==> ("-" + d)[k] == '-' || IsDigit(("-" + d)[k]);
    }
  }

  /** strip() of a written line removes just its newline. */
  lemma {:induction false} StripLine(name: string, digits: string)
    requires name == [] || !IsSpace(name[0])
    requires |digits| > 0 && IsDigit(digits[|digits| - 1])
    ensures Strip(name + "," + digits + "\n") == name + "," + digits
  {
    var body := name + "," + digits;
    var line := body + "\n";
    assert line[0] == body[0];
    NoLeadingSpace(line, IsSpace);
    assert body[|body| - 1] == digits[|digits| - 1];
    DropNewline(body);
  }

  lemma {:induction false} NoLeadingSpace(s: string, space: char -> bool)
    requires |s| > 0 && !space(s[0])
    ensures StripLeft(s, space) == s
  {
  }

  lemma {:induction false} NoTrailingSpace(s: string, space: char -> bool)
    requires |s| > 0 && !space(s[|s| - 1])
    ensures StripRight(s, space) == s
  {
  }

  lemma {:induction false} DropNewline(body: string)
    requires |body| > 0 && IsDigit(body[|body| - 1])
    ensures StripRight(body + "\n", IsSpace) == body
  {
    var line := body + "\n";
    assert line[..|line| - 1] == body;
    assert StripRight(line, IsSpace) == StripRight(body, IsSpace);
  }

  /** Every name load_records returns can be written and read back unchanged. */
  lemma {:induction false} ParsedNameValid(line: string)
    requires ParseLine(line).Success?
    ensures ValidName(ParseLine(line).value.name)
  {
    var t := Strip(line);
    var fields := Split(t);
    var name := fields[0];
    assert Join(fields) == name + "," + Join(fields[1..]);
    if name != [] {
      assert t[0] == name[0];
    }
  }

  // ---------------------------------------------------------------------------
  // The whole file

  /** The first list comprehension of load_records: each line stripped and split, then
      unpacked and converted (the second comprehension), line by line. */
  function ParseAll(lines: seq<string>): (results: seq<Result<Record, LineError>>)
    ensures |results| == |lines|
  {
    seq(|lines|, i requires 0 <= i < |lines| => ParseLine(lines[i]))
  }

  /** The records of the per-line results, or the first line that raises. */
  function Collect(results: seq<Result<Record, LineError>>): Result<seq<Record>, LoadError> {
    if results == [] then Success([])
    else if results[0].Failure? then Failure(LoadError(0, results[0].error))
    else
      var rest := Collect(results[1..]);
      if rest.Failure? then Failure(LoadError(rest.error.line + 1, rest.error.reason))
      else Success([results[0].value] + rest.value)
  }

  /** Collecting succeeds exactly when every line does, and then keeps the records in file
      order; otherwise it reports the first failing line. */
  lemma {:induction false} CollectSpec(results: seq<Result<Record, LineError>>)
    ensures var r := Collect(results);
      && (r.Success? <==> forall i :: 0 <= i < |results| ==> results[i].Success?)
      && (r.Success? ==> |r.value| == |results|)
      && (r.Success? ==> forall i :: 0 <= i < |results| ==> results[i] == Success(r.value[i]))
      && (r.Failure? ==> r.error.line < |results| && results[r.error.line] == Failure(r.error.reason))
      && (r.Failure? ==> forall i :: 0 <= i < r.error.line ==> results[i].Success?)
  {
    if results != [] {
      CollectSpec(results[1..]);
      assert forall i :: 0 < i < |results| ==> results[i] == results[1..][i - 1];
    }
  }

  /** Both list comprehensions of load_records. */
  function ParseRecords(lines: seq<string>): Result<seq<Record>, LoadError> {
    Collect(ParseAll(lines))
  }

  /** load_records(): a missing file reads as the empty table. */
  function LoadRecords(file: Option<seq<string>>): Result<seq<Record>, LoadError> {
    match file
    case None => Success([])
    case Some(lines) => ParseRecords(lines)
  }

  /** The lines save_records writes for a table. */
  function SerializeRecords(rs: seq<Record>): seq<string> {
    seq(|rs|, i requires 0 <= i < |rs| => FormatRecord(rs[i]))
  }

  /** Writing a table and loading it back gives the same table. */
  lemma {:induction false} RecordsRoundTrip(rs: seq<Record>)
    requires forall i :: 0 <= i < |rs| ==> ValidName(rs[i].name)
    ensures LoadRecords(Some(SerializeRecords(rs))) == Success(rs)
  {
    var lines := SerializeRecords(rs);
    forall i | 0 <= i < |rs| ensures ParseLine(lines[i]) == Success(rs[i]) {
      LineRoundTrip(rs[i]);
    }
    CollectSpec(ParseAll(lines));
    var r := ParseRecords(lines);
    assert r.Success?;
    assert r.value == rs;
  }

  /** Every name in a table that load_records returned is a valid one. */
  lemma {:induction false} LoadedNamesValid(file: Option<seq<string>>)
    requires LoadRecords(file).Success?
    ensures forall i :: 0 <= i < |LoadRecords(file).value| ==> ValidName(LoadRecords(file).value[i].name)
  {
    if file.Some? {
      var results := ParseAll(file.value);
      CollectSpec(results);
      var table := Collect(results).value;
      forall i | 0 <= i < |table| ensures ValidName(table[i].name) {
        assert results[i] == ParseLine(file.value[i]);
        ParsedNameValid(file.value[i]);
      }
    }
  }

  // ---------------------------------------------------------------------------
  // records.sort(key=score, reverse=True): a stable sort by descending score

  predicate SortedDesc(rs: seq<Record>) {
    forall i, j :: 0 <= i < j < |rs| ==> rs[i].score >= rs[j].score
  }

  /** x placed after every record of rs whose score is at least x's. */
  function InsertAfterTies(x: Record, rs: seq<Record>): (r: seq<Record>)
    ensures |r| == |rs| + 1
  {
    if rs == [] then [x]
    else if x.score > rs[0].score then [x] + rs
    else
      assert rs == [rs[0]] + rs[1..];
      [rs[0]] + InsertAfterTies(x, rs[1..])
  }

  /** Inserting into a sorted table keeps it sorted. */
  lemma {:induction false} InsertAfterTiesSorted(x: Record, rs: seq<Record>)
    requires SortedDesc(rs)
    ensures SortedDesc(InsertAfterTies(x, rs))
  {
    InsertAfterTiesPlace(x, rs);
    CountAtLeastPrefix(rs, x.score);
    var k := CountAtLeast(rs, x.score);
    var r := InsertAfterTies(x, rs);
    forall i, j | 0 <= i < j < |r| ensures r[i].score >= r[j].score {
      assert i < k ==> r[i] == rs[i];
      assert i == k ==> r[i] == x;
      assert i > k ==> r[i] == rs[i - 1];
      assert j < k ==> r[j] == rs[j];
      assert j == k ==> r[j] == x;
      assert j > k ==> r[j] == rs[j - 1];
    }
  }

  /** Inserting adds exactly the one record. */
  lemma {:induction false} InsertAfterTiesPerm(x: Record, rs: seq<Record>)
    ensures multiset(InsertAfterTies(x, rs)) == multiset(rs) + multiset{x}
  {
    if rs != [] && x.score <= rs[0].score {
      InsertAfterTiesPerm(x, rs[1..]);
      assert rs == [rs[0]] + rs[1..];
    }
  }

  /** The stable descending sort: the last record goes after its equals. */
  function SortDesc(rs: seq<Record>): (r: seq<Record>)
    ensures |r| == |rs|
  {
    if rs == [] then [] else InsertAfterTies(rs[|rs| - 1], SortDesc(rs[..|rs| - 1]))
  }

  /** The sort yields non-increasing score order. */
  lemma {:induction false} SortDescSorted(rs: seq<Record>)
    ensures SortedDesc(SortDesc(rs))
  {
    if rs != [] {
      SortDescSorted(rs[..|rs| - 1]);
      InsertAfterTiesSorted(rs[|rs| - 1], SortDesc(rs[..|rs| - 1]));
    }
  }

  /** The sort is a permutation. */
  lemma {:induction false} SortDescPerm(rs: seq<Record>)
    ensures multiset(SortDesc(rs)) == multiset(rs)
  {
    if rs != [] {
      var init, last := rs[..|rs| - 1], rs[|rs| - 1];
      SortDescPerm(init);
      InsertAfterTiesPerm(last, SortDesc(init));
      assert rs == init + [last];
    }
  }

  /** The sort is a permutation into non-increasing score order. */
  lemma {:induction false} SortDescSpec(rs: seq<Record>)
    ensures SortedDesc(SortDesc(rs))
    ensures multiset(SortDesc(rs)) == multiset(rs)
  {
    SortDescSorted(rs);
    SortDescPerm(rs);
  }

  /** The records of rs whose score is exactly v, in their order. */
  function WithScore(rs: seq<Record>, v: int): seq<Record> {
    if rs == [] then []
    else (if rs[0].score == v then [rs[0]] else []) + WithScore(rs[1..], v)
  }

  lemma {:induction false} WithScoreAppend(a: seq<Record>, b: seq<Record>, v: int)
    ensures WithScore(a + b, v) == WithScore(a, v) + WithScore(b, v)
  {
    if a == [] {
      assert a + b == b;
    } else {
      var c := a + b;
      assert c[0] == a[0] && c[1..] == a[1..] + b;
      var head := if a[0].score == v then [a[0]] else [];
      WithScoreAppend(a[1..], b, v);
      calc {
        WithScore(c, v);
        head + WithScore(a[1..] + b, v);
        head + (WithScore(a[1..], v) + WithScore(b, v));
        (head + WithScore(a[1..], v)) + WithScore(b, v);
      }
    }
  }

  /** Where x lands after the ties of a sorted table, and how that keeps ties in order. */
  lemma {:induction false} InsertAfterTiesStable(x: Record, rs: seq<Record>, v: int)
    requires SortedDesc(rs)
    ensures WithScore(InsertAfterTies(x, rs), v) == WithScore(rs + [x], v)
  {
    if rs == [] {
    } else if x.score > rs[0].score {
      // every record of rs scores less than x
      forall k | 0 <= k < |rs| ensures rs[k].score < x.score { }
      if x.score == v {
        NoneWithScore(rs, v);
        WithScoreAppend([x], rs, v);
        WithScoreAppend(rs, [x], v);
      } else {
        WithScoreAppend([x], rs, v);
        WithScoreAppend(rs, [x], v);
      }
    } else {
      InsertAfterTiesStable(x, rs[1..], v);
      WithScoreAppend([rs[0]], InsertAfterTies(x, rs[1..]), v);
      assert rs + [x] == [rs[0]] + (rs[1..] + [x]);
      WithScoreAppend([rs[0]], rs[1..] + [x], v);
    }
  }

  lemma {:induction false} NoneWithScore(rs: seq<Record>, v: int)
    requires forall k :: 0 <= k < |rs| ==> rs[k].score < v
    ensures WithScore(rs, v) == []
  {
    if rs != [] { NoneWithScore(rs[1..], v); }
  }

  /** Stability: for every score, the records with that score keep their relative order. */
  lemma {:induction false} SortDescStable(rs: seq<Record>, v: int)
    ensures WithScore(SortDesc(rs), v) == WithScore(rs, v)
  {
    if rs != [] {
      var init, last := rs[..|rs| - 1], rs[|rs| - 1];
      SortDescStable(init, v);
      SortDescSpec(init);
      InsertAfterTiesStable(last, SortDesc(init), v);
      WithScoreAppend(SortDesc(init), [last], v);
      WithScoreAppend(init, [last], v);
      assert init + [last] == rs;
    }
  }

  /** Any descending order of rs that keeps equal scores in their input order, which is
      what a stable sort such as list.sort computes, is SortDesc(rs). */
  lemma {:induction false} StableSortUnique(rs: seq<Record>, r: seq<Record>)
    requires SortedDesc(r)
    requires forall v :: WithScore(r, v) == WithScore(rs, v)
    ensures r == SortDesc(rs)
  {
    forall v ensures WithScore(r, v) == WithScore(SortDesc(rs), v) {
      SortDescStable(rs, v);
    }
    SortDescSpec(rs);
    SameTiesSameOrder(r, SortDesc(rs));
  }

  /** Two descending orders with the same records of every score, in the same order, agree. */
  lemma {:induction false} SameTiesSameOrder(a: seq<Record>, b: seq<Record>)
    requires SortedDesc(a) && SortedDesc(b)
    requires forall v :: WithScore(a, v) == WithScore(b, v)
    ensures a == b
  {
    if a == [] || b == [] {
      if a != [] {
        WithScoreLast(a);
      }
      if b != [] {
        WithScoreLast(b);
      }
    } else {
      var ia, ib := a[..|a| - 1], b[..|b| - 1];
      LowestAgree(a, b);
      forall v ensures WithScore(ia, v) == WithScore(ib, v) {
        InitTies(a, b, v);
      }
      SameTiesSameOrder(ia, ib);
      assert a == ia + [a[|a| - 1]] && b == ib + [b[|b| - 1]];
    }
  }

  /** Each list holds a record with the other's lowest score, so the two last records,
      which end the records of that score, are the same. */
  lemma {:induction false} LowestAgree(a: seq<Record>, b: seq<Record>)
    requires a != [] && b != [] && SortedDesc(a) && SortedDesc(b)
    requires forall v :: WithScore(a, v) == WithScore(b, v)
    ensures a[|a| - 1] == b[|b| - 1]
  {
    var la, lb := a[|a| - 1], b[|b| - 1];
    WithScoreLast(a);
    WithScoreLast(b);
    WithScoreMembers(b, la.score, |WithScore(b, la.score)| - 1);
    WithScoreMembers(a, lb.score, |WithScore(a, lb.score)| - 1);
    assert la.score == lb.score;
  }

  /** Dropping the same last record from both lists keeps their ties equal. */
  lemma {:induction false} InitTies(a: seq<Record>, b: seq<Record>, v: int)
    requires a != [] && b != [] && a[|a| - 1] == b[|b| - 1]
    requires WithScore(a, v) == WithScore(b, v)
    ensures WithScore(a[..|a| - 1], v) == WithScore(b[..|b| - 1], v)
  {
    var ia, ib, l := a[..|a| - 1], b[..|b| - 1], a[|a| - 1];
    assert a == ia + [l] && b == ib + [l];
    WithScoreAppend(ia, [l], v);
    WithScoreAppend(ib, [l], v);
    var x, y, t := WithScore(ia, v), WithScore(ib, v), WithScore([l], v);
    assert x + t == y + t;
    assert x == (x + t)[..|x|];
    assert y == (y + t)[..|y|];
  }

  /** The last record of a list ends the records with its score. */
  lemma {:induction false} WithScoreLast(a: seq<Record>)
    requires a != []
    ensures WithScore(a, a[|a| - 1].score) == WithScore(a[..|a| - 1], a[|a| - 1].score) + [a[|a| - 1]]
  {
    assert a == a[..|a| - 1] + [a[|a| - 1]];
    WithScoreAppend(a[..|a| - 1], [a[|a| - 1]], a[|a| - 1].score);
  }

  /** WithScore picks records of rs, each with score v. */
  lemma {:induction false} WithScoreMembers(rs: seq<Record>, v: int, i: int)
    requires 0 <= i < |WithScore(rs, v)|
    ensures WithScore(rs, v)[i] in rs && WithScore(rs, v)[i].score == v
  {
    if rs[0].score == v {
      if i > 0 {
        WithScoreMembers(rs[1..], v, i - 1);
      }
    } else {
      WithScoreMembers(rs[1..], v, i);
    }
  }

  /** Number of records of rs whose score is at least v. */
  function CountAtLeast(rs: seq<Record>, v: int): (n: nat)
    ensures n <= |rs|
  {
    if rs == [] then 0 else (if rs[0].score >= v then 1 else 0) + CountAtLeast(rs[1..], v)
  }

  /** In a sorted table, x goes right after the records scoring at least x's score. */
  lemma {:induction false} InsertAfterTiesPlace(x: Record, rs: seq<Record>)
    requires SortedDesc(rs)
    ensures var k := CountAtLeast(rs, x.score);
      InsertAfterTies(x, rs) == rs[..k] + [x] + rs[k..]
  {
    if rs == [] {
    } else if x.score > rs[0].score {
      NoneAtLeast(rs, x.score);
    } else {
      InsertAfterTiesPlace(x, rs[1..]);
      var k := CountAtLeast(rs[1..], x.score);
      assert rs[..k + 1] == [rs[0]] + rs[1..][..k];
      assert rs[k + 1..] == rs[1..][k..];
    }
  }

  /** In a sorted table the records reaching v are exactly the first CountAtLeast(rs, v). */
  lemma {:induction false} CountAtLeastPrefix(rs: seq<Record>, v: int)
    requires SortedDesc(rs)
    ensures forall i :: 0 <= i < CountAtLeast(rs, v) ==> rs[i].score >= v
    ensures forall i :: CountAtLeast(rs, v) <= i < |rs| ==> rs[i].score < v
  {
    if rs != [] {
      if rs[0].score < v {
        NoneAtLeast(rs, v);
      } else {
        CountAtLeastPrefix(rs[1..], v);
        assert forall i :: 0 < i < |rs| ==> rs[i] == rs[1..][i - 1];
      }
    }
  }

  lemma {:induction false} NoneAtLeast(rs: seq<Record>, v: int)
    requires SortedDesc(rs) && (rs == [] || rs[0].score < v)
    ensures CountAtLeast(rs, v) == 0
  {
    if rs != [] { NoneAtLeast(rs[1..], v); }
  }

  lemma {:induction false} CountAtLeastInsert(x: Record, rs: seq<Record>, v: int)
    ensures CountAtLeast(InsertAfterTies(x, rs), v) == CountAtLeast(rs, v) + (if x.score >= v then 1 else 0)
  {
    if rs != [] && x.score <= rs[0].score {
      CountAtLeastInsert(x, rs[1..], v);
    }
  }

  /** Sorting does not change how many records reach a score. */
  lemma {:induction false} CountAtLeastSort(rs: seq<Record>, v: int)
    ensures CountAtLeast(SortDesc(rs), v) == CountAtLeast(rs, v)
  {
    if rs != [] {
      var init, last := rs[..|rs| - 1], rs[|rs| - 1];
      CountAtLeastSort(init, v);
      CountAtLeastInsert(last, SortDesc(init), v);
      CountAtLeastAppend(init, last, v);
      assert init + [last] == rs;
    }
  }

  lemma {:induction false} CountAtLeastAppend(rs: seq<Record>, x: Record, v: int)
    ensures CountAtLeast(rs + [x], v) == CountAtLeast(rs, v) + (if x.score >= v then 1 else 0)
  {
    if rs != [] {
      assert (rs + [x])[1..] == rs[1..] + [x];
      CountAtLeastAppend(rs[1..], x, v);
    }
  }

  // ---------------------------------------------------------------------------
  // The table update of save_records

  function Min(a: nat, b: nat): nat { if a < b then a else b }

  /** records + [entry], sorted by descending score, cut to the first five. */
  function TopFive(table: seq<Record>, entry: Record): (r: seq<Record>)
    ensures |r| == Min(MAX_RECORDS, |table| + 1)
  {
    var all := SortDesc(table + [entry]);
    all[..Min(MAX_RECORDS, |all|)]
  }

  /** The new table is non-increasing and drawn from the old one plus the entry; it is the
      start of the sorted list, and every kept score is at least every dropped score. */
  lemma {:induction false} TopFiveSpec(table: seq<Record>, entry: Record)
    ensures var r := TopFive(table, entry);
      && SortedDesc(r)
      && multiset(r) <= multiset(table + [entry])
      && var all := SortDesc(table + [entry]);
        r == all[..|r|] && forall i, j :: 0 <= i < |r| <= j < |all| ==> r[i].score >= all[j].score
  {
    var all := SortDesc(table + [entry]);
    var r := TopFive(table, entry);
    SortDescSpec(table + [entry]);
    assert all == r + all[|r|..];
    assert multiset(all) == multiset(r) + multiset(all[|r|..]);
  }

  /** A new score ranks after every kept score that equals or beats it: it is kept
      exactly when fewer than five old records reach it, and then it sits right after them;
      otherwise the result is the old top five. */
  lemma {:induction false} NewRecordPlacement(table: seq<Record>, entry: Record)
    ensures var k := CountAtLeast(table, entry.score);
      (k < MAX_RECORDS ==> TopFive(table, entry) == (SortDesc(table)[..k] + [entry] + SortDesc(table)[k..])[..Min(MAX_RECORDS, |table| + 1)])
      && (k >= MAX_RECORDS ==> TopFive(table, entry) == SortDesc(table)[..MAX_RECORDS])
  {
    var s := SortDesc(table);
    SortDescSpec(table);
    assert (table + [entry])[..|table|] == table;
    assert SortDesc(table + [entry]) == InsertAfterTies(entry, s);
    CountAtLeastSort(table, entry.score);
    InsertAfterTiesPlace(entry, s);
    assert multiset(s) == multiset(table);
    assert |s| == |table|;
  }

  /** Every kept record comes from the old table or is the new entry. */
  lemma {:induction false} TopFiveDrawnFrom(table: seq<Record>, entry: Record, i: nat)
    requires i < |TopFive(table, entry)|
    ensures TopFive(table, entry)[i] in table || TopFive(table, entry)[i] == entry
  {
    var r := TopFive(table, entry);
    TopFiveSpec(table, entry);
    assert r[i] in multiset(r);
    assert r[i] in multiset(table + [entry]);
    assert r[i] in table + [entry];
  }

  /** What save_records(name, score) does with the file: the lines of the new top five,
      or the first line of the old file that made loading raise. */
  function SaveResult(file: Option<seq<string>>, name: string, score: int): Result<seq<string>, LoadError> {
    var loaded := LoadRecords(file);
    if loaded.Failure? then Failure(loaded.error)
    else Success(SerializeRecords(TopFive(loaded.value, Record(name, score))))
  }

  /** The stored table: the first line to fail, or exactly the lines written. */
  method SaveRecords(file: Option<seq<string>>, name: string, score: int)
    returns (written: Result<seq<string>, LoadError>)
    ensures written == SaveResult(file, name, score)
    ensures written.Success? <==> LoadRecords(file).Success?
    ensures written.Success? ==> |written.value| <= MAX_RECORDS
  {
    var loaded := LoadRecords(file);
    if loaded.Failure? {
      return Failure(loaded.error);
    }
    var records := loaded.value + [Record(name, score)];
    records := SortDesc(records);
    records := records[..Min(MAX_RECORDS, |records|)];
    assert records == TopFive(loaded.value, Record(name, score));
    var lines := WriteRecords(records);
    written := Success(lines);
  }

  /** The writing loop: one `name,score` line per record, in table order. */
  method WriteRecords(records: seq<Record>) returns (lines: seq<string>)
    ensures |lines| == |records|
    ensures forall k :: 0 <= k < |records| ==> lines[k] == FormatRecord(records[k])
    ensures lines == SerializeRecords(records)
  {
    lines := [];
    for i := 0 to |records|
      invariant |lines| == i
      invariant forall k :: 0 <= k < i ==> lines[k] == FormatRecord(records[k])
    {
      lines := lines + [FormatRecord(records[i])];
    }
  }

  /** Saving and then loading gives the entry top five, when the entry name is valid. */
  lemma {:induction false} SaveThenLoad(file: Option<seq<string>>, name: string, score: int)
    requires LoadRecords(file).Success? && ValidName(name)
    ensures SaveResult(file, name, score).Success?
    ensures var table := TopFive(LoadRecords(file).value, Record(name, score));
      LoadRecords(Some(SaveResult(file, name, score).value)) == Success(table)
  {
    var loaded := LoadRecords(file).value;
    var table := TopFive(loaded, Record(name, score));
    LoadedNamesValid(file);
    forall i | 0 <= i < |table| ensures ValidName(table[i].name) {
      TopFiveDrawnFrom(loaded, Record(name, score), i);
    }
    RecordsRoundTrip(table);
  }
}
