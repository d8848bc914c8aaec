/**
 * The CSV field escaping of the administrator's exports, and a reader for the comma-separated
 * record format of RFC 4180 (fields separated by ',', records ended by a line break, a field
 * that holds ',', '"' or a line break enclosed in double quotes with inner quotes doubled).
 */
module Csv {
  import opened Wrappers
  import opened Sequences

  /** Every double quote written twice. */
  function DoubleQuotes(s: string): (r: string)
    ensures forall c :: c in r <==> c in s
    ensures |r| >= |s|
  {
    if s == [] then []
    else (if s[0] == '"' then "\"\"" else [s[0]]) + DoubleQuotes(s[1..])
  }

  /** The text a value shows as: nothing for a missing value. */
  function Shown(v: Option<string>): string {
    match v
    case None => ""
    case Some(s) => s
  }

  /**
   * The quoting test of the export as the source writes it. Its character class holds '"',
   * ',', the backslash and the letter 'n': the two-character escape stands for a backslash
   * followed by 'n' inside the class, not for a line break.
   */
  predicate NeedsQuotingAsWritten(d: string) {
    '"' in d || ',' in d || '\\' in d || 'n' in d
  }

  /** The characters that force quoting in RFC 4180: '"', ',' and the line break. */
  predicate NeedsQuoting(d: string) {
    '"' in d || ',' in d || '\n' in d
  }

  /** The export's esc as written: double the quotes, then quote if the class matches. */
  function Esc(v: Option<string>): (f: string)
    ensures v.None? ==> f == ""
    ensures v.Some? && NeedsQuotingAsWritten(v.value) ==> f == "\"" + DoubleQuotes(v.value) + "\""
    ensures v.Some? && !NeedsQuotingAsWritten(v.value) ==> f == v.value
  {
    match v
    case None => ""
    case Some(s) =>
      var d := DoubleQuotes(s);
      if NeedsQuotingAsWritten(d) then "\"" + d + "\""
      else
        NoQuotesNoChange(s);
        d
  }

  /** esc with the class it evidently means: quote a field holding '"', ',' or a line break. */
  function EscIntended(v: Option<string>): (f: string)
    ensures v.None? ==> f == ""
    ensures v.Some? && NeedsQuoting(v.value) ==> f == "\"" + DoubleQuotes(v.value) + "\""
    ensures v.Some? && !NeedsQuoting(v.value) ==> f == v.value
  {
    match v
    case None => ""
    case Some(s) =>
      var d := DoubleQuotes(s);
      if NeedsQuoting(d) then "\"" + d + "\""
      else
        NoQuotesNoChange(s);
        d
  }

  /** One exported line: the escaped fields joined by ','. */
  function Join(fields: seq<string>): string {
    if |fields| <= 1 then (if fields == [] then "" else fields[0])
    else fields[0] + "," + Join(fields[1..])
  }

  /** Every value escaped as the source writes it, in order. */
  function EscAllAsWritten(vs: seq<Option<string>>): seq<string> {
    if vs == [] then [] else [Esc(vs[0])] + EscAllAsWritten(vs[1..])
  }

  /** Every value escaped as intended, in order. */
  function EscAll(vs: seq<Option<string>>): seq<string> {
    if vs == [] then [] else [EscIntended(vs[0])] + EscAll(vs[1..])
  }

  /** No value needs quoting under either class. */
  predicate Unflagged(vs: seq<Option<string>>) {
    forall i :: 0 <= i < |vs| ==> vs[i].None? || (!NeedsQuoting(vs[i].value) && !NeedsQuotingAsWritten(vs[i].value))
  }

  /**
   * One line as the source writes it. When no value needs quoting under either class it is
   * the corrected line, so the defect lies only in the values the two classes judge apart.
   */
  function LineAsWritten(vs: seq<Option<string>>): (l: string)
    ensures Unflagged(vs) ==> l == Line(vs)
  {
    EscAllAgree(vs);
    Join(EscAllAsWritten(vs))
  }

  /** One corrected line. A line of values that need no quoting is their text joined by ','. */
  function Line(vs: seq<Option<string>>): (l: string)
    ensures (forall i :: 0 <= i < |vs| ==> vs[i].None? || !NeedsQuoting(vs[i].value)) ==> l == Join(ShownRow(vs))
  {
    EscAllPlain(vs);
    Join(EscAll(vs))
  }

  lemma {:induction false} EscAllAgree(vs: seq<Option<string>>)
    ensures Unflagged(vs) ==> EscAllAsWritten(vs) == EscAll(vs)
  {
    if vs != [] && Unflagged(vs) {
      assert Unflagged(vs[1..]) by {
        forall i | 0 <= i < |vs[1..]| ensures vs[1..][i] == vs[i + 1] { }
      }
      EscAllAgree(vs[1..]);
    }
  }

  lemma {:induction false} EscAllPlain(vs: seq<Option<string>>)
    ensures (forall i :: 0 <= i < |vs| ==> vs[i].None? || !NeedsQuoting(vs[i].value)) ==> EscAll(vs) == ShownRow(vs)
  {
    if vs != [] && forall i :: 0 <= i < |vs| ==> vs[i].None? || !NeedsQuoting(vs[i].value) {
      assert forall i :: 0 <= i < |vs[1..]| ==> vs[1..][i].None? || !NeedsQuoting(vs[1..][i].value) by {
        forall i | 0 <= i < |vs[1..]| ensures vs[1..][i] == vs[i + 1] { }
      }
      EscAllPlain(vs[1..]);
    }
  }

  // ---------------------------------------------------------------------------
  // The reader

  /** The rest of a quoted field after its opening quote: its text, and what follows the closing quote. */
  function ReadQuoted(t: string): (r: (string, string))
    ensures |r.1| <= |t|
  {
    if t == [] then ([], [])
    else if t[0] == '"' then
      if |t| >= 2 && t[1] == '"' then
        var (c, rest) := ReadQuoted(t[2..]);
        ("\"" + c, rest)
      else ([], t[1..])
    else
      var (c, rest) := ReadQuoted(t[1..]);
      ([t[0]] + c, rest)
  }

  /** An unquoted field: everything up to the next ',' or line break. */
  function ReadBare(t: string): (r: (string, string))
    ensures |r.1| <= |t|
  {
    if t == [] || t[0] == ',' || t[0] == '\n' then ([], t)
    else
      var (c, rest) := ReadBare(t[1..]);
      ([t[0]] + c, rest)
  }

  /** One field: quoted when it opens with '"', bare otherwise. */
  function ReadField(t: string): (r: (string, string))
    ensures |r.1| <= |t|
  {
    if t != [] && t[0] == '"' then ReadQuoted(t[1..]) else ReadBare(t)
  }

  /** The fields of the record at the start of `t`, and what follows its last field. */
  function ReadFields(t: string): (r: (seq<string>, string))
    ensures |r.0| >= 1 && |r.1| <= |t|
    decreases |t|
  {
    var (f, rest) := ReadField(t);
    if rest != [] && rest[0] == ',' then
      var (fs, after) := ReadFields(rest[1..]);
      ([f] + fs, after)
    else ([f], rest)
  }

  /** The fields of the first record of `t`. */
  function ReadRecord(t: string): (fs: seq<string>)
    ensures |fs| >= 1
  {
    ReadFields(t).0
  }

  /** Every record of `t`, records separated by line breaks. */
  function ReadDocument(t: string): (records: seq<seq<string>>)
    ensures |records| >= 1
    decreases |t|
  {
    var (fs, rest) := ReadFields(t);
    if rest != [] && rest[0] == '\n' then [fs] + ReadDocument(rest[1..]) else [fs]
  }

  /** What may follow a field in a record: nothing, a separator or the end of the line. */
  predicate FieldEnd(rest: string) {
    rest == [] || rest[0] == ',' || rest[0] == '\n'
  }

  // ---------------------------------------------------------------------------
  // Properties

  lemma {:induction false} ReadQuotedDoubled(s: string, rest: string)
    requires rest == [] || rest[0] != '"'
    ensures ReadQuoted(DoubleQuotes(s) + ("\"" + rest)) == (s, rest)
  {
    var u := "\"" + rest;
    if s != [] {
      ReadQuotedDoubled(s[1..], rest);
      var tail := DoubleQuotes(s[1..]) + u;
      var head := if s[0] == '"' then "\"\"" else [s[0]];
      assert DoubleQuotes(s) == head + DoubleQuotes(s[1..]);
      AppendAssoc(head, DoubleQuotes(s[1..]), u);
      assert (head + tail)[|head|..] == tail;
      assert s == [s[0]] + s[1..];
    } else {
      assert DoubleQuotes(s) + u == u && u[0] == '"' && u[1..] == rest;
    }
  }

  lemma {:induction false} ReadBarePlain(s: string, rest: string)
    requires forall i :: 0 <= i < |s| ==> s[i] != ',' && s[i] != '\n'
    requires FieldEnd(rest)
    ensures ReadBare(s + rest) == (s, rest)
  {
    if s != [] {
      ReadBarePlain(s[1..], rest);
      assert (s + rest)[0] == s[0] && (s + rest)[1..] == s[1..] + rest;
      assert s == [s[0]] + s[1..];
    } else {
      assert s + rest == rest;
    }
  }

  /** A string without quotes is its own doubling. */
  lemma {:induction false} NoQuotesNoChange(s: string)
    requires '"' !in s
    ensures DoubleQuotes(s) == s
  {
    if s != [] {
      assert forall c :: c in s[1..] ==> c in s;
      NoQuotesNoChange(s[1..]);
      assert s == [s[0]] + s[1..];
    }
  }

  /** A field written by the corrected esc reads back as the value's text, whatever follows it. */
  lemma EscIntendedReadsBack(v: Option<string>, rest: string)
    requires FieldEnd(rest)
    ensures ReadField(EscIntended(v) + rest) == (Shown(v), rest)
  {
    var s := Shown(v);
    var f := EscIntended(v);
    if v.Some? && NeedsQuoting(s) {
      var d := DoubleQuotes(s);
      assert f + rest == "\"" + (d + ("\"" + rest));
      assert (f + rest)[1..] == d + ("\"" + rest);
      ReadQuotedDoubled(s, rest);
    } else {
      ReadBarePlain(s, rest);
    }
  }

  /** The values of a row as a reader sees them. */
  function ShownRow(vs: seq<Option<string>>): seq<string> {
    if vs == [] then [] else [Shown(vs[0])] + ShownRow(vs[1..])
  }

  /** A line of several values is the first escaped value, a comma and the line of the rest. */
  lemma LineCons(vs: seq<Option<string>>)
    requires |vs| >= 1
    ensures |vs| == 1 ==> Line(vs) == EscIntended(vs[0])
    ensures |vs| >= 2 ==> Line(vs) == EscIntended(vs[0]) + "," + Line(vs[1..])
  {
    var fields := EscAll(vs);
    assert fields[0] == EscIntended(vs[0]) && fields[1..] == EscAll(vs[1..]);
    if |vs| == 1 {
      assert fields == [EscIntended(vs[0])];
    } else {
      assert |EscAll(vs[1..])| >= 1 by {
        assert vs[1..] != [];
      }
    }
  }

  /** A record whose first field is followed by a comma continues after it. */
  lemma ReadFieldsMore(t: string, f: string, u: string)
    requires ReadField(t) == (f, "," + u)
    ensures ReadFields(t) == ([f] + ReadFields(u).0, ReadFields(u).1)
  {
    assert ("," + u)[1..] == u;
  }

  /** A record whose field is followed by nothing or a line break ends there. */
  lemma ReadFieldsLast(t: string, f: string, rest: string)
    requires ReadField(t) == (f, rest)
    requires rest == [] || rest[0] == '\n'
    ensures ReadFields(t) == ([f], rest)
  {
  }

  lemma SingleFieldReadsBack(vs: seq<Option<string>>, rest: string)
    requires |vs| == 1
    requires rest == [] || rest[0] == '\n'
    ensures ReadFields(Line(vs) + rest) == (ShownRow(vs), rest)
  {
    LineCons(vs);
    EscIntendedReadsBack(vs[0], rest);
    ReadFieldsLast(Line(vs) + rest, Shown(vs[0]), rest);
    assert ShownRow(vs) == [Shown(vs[0])];
  }

  /** A field written before a comma reads back, followed by the fields of what comes after. */
  lemma ConsFieldReadsBack(v: Option<string>, tail: string, fs: seq<string>, rest: string)
    requires ReadFields(tail) == (fs, rest)
    ensures ReadFields(EscIntended(v) + ("," + tail)) == ([Shown(v)] + fs, rest)
  {
    assert ("," + tail)[0] == ',';
    EscIntendedReadsBack(v, "," + tail);
    ReadFieldsMore(EscIntended(v) + ("," + tail), Shown(v), tail);
  }

  /** The line the corrected export writes reads back as exactly the row's values. */
  lemma {:induction false} LineFieldsReadBack(vs: seq<Option<string>>, rest: string)
    requires |vs| >= 1
    requires rest == [] || rest[0] == '\n'
    ensures ReadFields(Line(vs) + rest) == (ShownRow(vs), rest)
    decreases |vs|
  {
    if |vs| == 1 {
      SingleFieldReadsBack(vs, rest);
    } else {
      LineFieldsReadBack(vs[1..], rest);
      LineFieldsStep(vs, rest);
    }
  }

  /** A line of two or more values reads back once the line of all but the first does. */
  lemma LineFieldsStep(vs: seq<Option<string>>, rest: string)
    requires |vs| >= 2
    requires ReadFields(Line(vs[1..]) + rest) == (ShownRow(vs[1..]), rest)
    ensures ReadFields(Line(vs) + rest) == (ShownRow(vs), rest)
  {
    LineCons(vs);
    Reassociate(EscIntended(vs[0]), ",", Line(vs[1..]), rest);
    ConsFieldReadsBack(vs[0], Line(vs[1..]) + rest, ShownRow(vs[1..]), rest);
  }

  lemma Reassociate(a: string, b: string, c: string, d: string)
    ensures a + b + c + d == a + (b + (c + d))
  {
  }

  lemma LineReadsBack(vs: seq<Option<string>>)
    requires |vs| >= 1
    ensures ReadRecord(Line(vs)) == ShownRow(vs)
  {
    LineFieldsReadBack(vs, []);
    assert Line(vs) + [] == Line(vs);
  }

  /** The lines of an export joined by line breaks. */
  function JoinLines(lines: seq<string>): string {
    if |lines| <= 1 then (if lines == [] then "" else lines[0])
    else lines[0] + "\n" + JoinLines(lines[1..])
  }

  /** One corrected line per row. */
  function Lines(rows: seq<seq<Option<string>>>): seq<string> {
    if rows == [] then [] else [Line(rows[0])] + Lines(rows[1..])
  }

  /** The values of every row as a reader sees them. */
  function ShownRows(rows: seq<seq<Option<string>>>): seq<seq<string>> {
    if rows == [] then [] else [ShownRow(rows[0])] + ShownRows(rows[1..])
  }

  /**
   * The text the corrected export downloads: the header line, its names joined by ',' as
   * they are, then one escaped line per row.
   */
  function Document(header: seq<string>, rows: seq<seq<Option<string>>>): (d: string)
    ensures |Join(header)| <= |d| && d[..|Join(header)|] == Join(header)
    ensures rows == [] ==> d == Join(header)
  {
    JoinLinesHead(Join(header), Lines(rows));
    JoinLines([Join(header)] + Lines(rows))
  }

  /** Joined lines begin with the first line, and are just that line when it is alone. */
  lemma JoinLinesHead(h: string, ls: seq<string>)
    ensures |h| <= |JoinLines([h] + ls)| && JoinLines([h] + ls)[..|h|] == h
    ensures ls == [] ==> JoinLines([h] + ls) == h
  {
    if ls != [] {
      JoinLinesCons(h, ls);
    }
  }

  /** Header names taken as present values. */
  function AsValues(header: seq<string>): seq<Option<string>> {
    if header == [] then [] else [Some(header[0])] + AsValues(header[1..])
  }

  /** Header names that need no quoting are written as their corrected escape, and read as themselves. */
  lemma {:induction false} PlainHeaderIsLine(header: seq<string>)
    requires forall j :: 0 <= j < |header| ==> !NeedsQuoting(header[j])
    ensures EscAll(AsValues(header)) == header
    ensures ShownRow(AsValues(header)) == header
    decreases |header|
  {
    if header != [] {
      PlainHeaderIsLine(header[1..]);
      assert header == [header[0]] + header[1..];
    }
  }

  /** Reading a document of escaped lines gives back every row. */
  lemma {:induction false} LinesReadBack(rows: seq<seq<Option<string>>>)
    requires |rows| >= 1
    requires forall i :: 0 <= i < |rows| ==> |rows[i]| >= 1
    ensures ReadDocument(JoinLines(Lines(rows))) == ShownRows(rows)
    decreases |rows|
  {
    if |rows| == 1 {
      LineFieldsReadBack(rows[0], []);
      assert Lines(rows) == [Line(rows[0])];
      assert JoinLines(Lines(rows)) == Line(rows[0]) + [];
      assert ShownRows(rows) == [ShownRow(rows[0])];
    } else {
      LinesReadBack(rows[1..]);
      LinesStep(rows);
    }
  }

  /** Several lines read back once all but the first do. */
  lemma LinesStep(rows: seq<seq<Option<string>>>)
    requires |rows| >= 2 && |rows[0]| >= 1
    requires ReadDocument(JoinLines(Lines(rows[1..]))) == ShownRows(rows[1..])
    ensures ReadDocument(JoinLines(Lines(rows))) == ShownRows(rows)
  {
    var rest := Lines(rows[1..]);
    var tail := JoinLines(rest);
    assert Lines(rows) == [Line(rows[0])] + rest;
    assert |rest| >= 1 by {
      assert rows[1..] != [];
    }
    JoinLinesCons(Line(rows[0]), rest);
    LineFieldsReadBack(rows[0], "\n" + tail);
    assert ("\n" + tail)[1..] == tail;
  }

  lemma JoinLinesCons(l: string, ls: seq<string>)
    requires |ls| >= 1
    ensures JoinLines([l] + ls) == l + ("\n" + JoinLines(ls))
  {
    assert ([l] + ls)[1..] == ls;
  }

  /**
   * The corrected export reads back as the header names followed by every row's values,
   * provided the header names need no quoting and every row has a field.
   */
  lemma DocumentReadsBack(header: seq<string>, rows: seq<seq<Option<string>>>)
    requires |header| >= 1 && forall j :: 0 <= j < |header| ==> !NeedsQuoting(header[j])
    requires forall i :: 0 <= i < |rows| ==> |rows[i]| >= 1
    ensures ReadDocument(Document(header, rows)) == [header] + ShownRows(rows)
  {
    var hs := AsValues(header);
    PlainHeaderIsLine(header);
    assert Line(hs) == Join(header);
    var all := [hs] + rows;
    assert all[1..] == rows;
    assert Lines(all) == [Join(header)] + Lines(rows);
    assert ShownRows(all) == [header] + ShownRows(rows);
    assert |hs| >= 1 by {
      assert |ShownRow(hs)| == |header|;
    }
    LinesReadBack(all);
  }

  /** A value the written class does not flag is written as it is. */
  lemma EscKeepsUnflagged(s: string)
    requires !NeedsQuotingAsWritten(s)
    ensures Esc(Some(s)) == s
  {
  }

  /** A quote-free value the written class flags is enclosed in quotes. */
  lemma EscQuotesFlagged(s: string)
    requires '"' !in s && NeedsQuotingAsWritten(s)
    ensures Esc(Some(s)) == "\"" + s + "\""
  {
    NoQuotesNoChange(s);
  }

  /** The value "a\nb" holds none of the characters the written class flags. */
  lemma LineBreakUnflagged()
    ensures !NeedsQuotingAsWritten("a\nb")
  {
    var ab := "a\nb";
    assert forall i | 0 <= i < |ab| :: ab[i] !in "\",\\n";
  }

  /** The export as written leaves a value with a line break unquoted. */
  lemma EscLeavesLineBreakUnquoted()
    ensures Esc(Some("a\nb")) == "a\nb"
    ensures LineAsWritten([Some("a\nb"), Some("c")]) == "a\nb,c"
  {
    var ab, c := "a\nb", "c";
    LineBreakUnflagged();
    EscKeepsUnflagged(ab);
    EscKeepsUnflagged(c);
    var vs := [Some(ab), Some(c)];
    assert vs[1..] == [Some(c)] && vs[1..][1..] == [];
    assert EscAllAsWritten([Some(c)]) == [c];
    assert EscAllAsWritten(vs) == [ab] + [c];
    assert Join([ab, c]) == ab + "," + Join([c]);
  }

  /** The line as written ends its record at the line break, after the field "a". */
  lemma AsWrittenReadsOneField()
    ensures ReadRecord("a\nb,c") == ["a"]
  {
    var t := "a\nb,c";
    assert t == "a" + "\nb,c";
    ReadBarePlain("a", "\nb,c");
    ReadFieldsLast(t, "a", "\nb,c");
  }

  /**
   * So a reader ends the record inside the value: the row ["a\nb", "c"] written as the source
   * writes it reads back as the single field "a", while the corrected line reads back intact.
   */
  lemma LineBreakSplitsRecord()
    ensures ReadRecord(LineAsWritten([Some("a\nb"), Some("c")])) == ["a"]
    ensures ReadRecord(Line([Some("a\nb"), Some("c")])) == ["a\nb", "c"]
  {
    EscLeavesLineBreakUnquoted();
    AsWrittenReadsOneField();
    var vs := [Some("a\nb"), Some("c")];
    LineReadsBack(vs);
    assert vs[1..] == [Some("c")] && vs[1..][1..] == [];
    assert ShownRow(vs) == ["a\nb"] + ["c"];
  }

  /** The written class also quotes harmless values that merely contain the letter 'n'. */
  lemma EscQuotesLetterN()
    ensures Esc(Some("name")) == "\"name\""
  {
    var s := "name";
    assert forall i | 0 <= i < |s| :: s[i] != '"';
    assert s[0] == 'n';
    EscQuotesFlagged(s);
  }
}
