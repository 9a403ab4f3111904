/** CSV lines as the client writes them (every field quoted, nothing escaped) and reads
    them (a tokenizer with escape, separator and quote characters). */
module Csv {
  import opened OpcUaTypes

  type Row = seq<string>

  const MAX_LINE_LEN := 1000000

  function RenderField(field: string): string {
    "\"" + field + "\""
  }

  function RenderRow(row: Row): string {
    if row == [] then ""
    else if |row| == 1 then RenderField(row[0])
    else RenderField(row[0]) + "," + RenderRow(row[1..])
  }

  /** The tokenizer: the fields of the rest of a line, or None where it raises an error. */
  function Tokens(s: string, field: string, inQuote: bool): Option<seq<string>>
    decreases |s|
  {
    if s == "" then Some([field])
    else if s[0] == '\\' then
      if |s| == 1 then None
      else if s[1] == 'n' then Tokens(s[2..], field + "\n", inQuote)
      else if s[1] == '\\' || s[1] == ',' || s[1] == '"' then Tokens(s[2..], field + [s[1]], inQuote)
      else None
    else if s[0] == ',' && !inQuote then
      match Tokens(s[1..], "", false)
      case None => None
      case Some(fields) => Some([field] + fields)
    else if s[0] == '"' then Tokens(s[1..], field, !inQuote)
    else Tokens(s[1..], field + [s[0]], inQuote)
  }

  function ParseRow(line: string): Option<Row> {
    if line == "" then Some([]) else Tokens(line, "", false)
  }

  /** Position of the first line end, or the length of the text. */
  function LineEnd(text: string): (n: nat)
    ensures n <= |text|
  {
    if text == "" || text[0] == '\n' then 0 else 1 + LineEnd(text[1..])
  }

  /** The next line and the text after it. A line that does not fit the buffer makes the
      stream fail, which the reader takes for the end of the file. */
  function NextLine(text: string): Option<(string, string)> {
    var n := LineEnd(text);
    if text == "" || n > MAX_LINE_LEN - 1 then None
    else Some((text[..n], if n < |text| then text[n + 1..] else ""))
  }

  lemma NextLineIsShorter(text: string)
    requires NextLine(text).Some?
    ensures |NextLine(text).value.1| < |text|
  {}

  // ---------------------------------------------------------------------
  // Round trip of a line
  // ---------------------------------------------------------------------

  predicate IsPlain(s: string) {
    forall i :: 0 <= i < |s| ==> s[i] != '"' && s[i] != '\\'
  }

  predicate PlainRow(row: Row) {
    forall i :: 0 <= i < |row| ==> IsPlain(row[i])
  }

  /** Inside quotes a plain text is taken over unchanged. */
  lemma {:induction false} PlainTextIsTaken(text: string, rest: string, field: string)
    requires IsPlain(text)
    ensures Tokens(text + rest, field, true) == Tokens(rest, field + text, true)
    decreases |text|
  {
    if text == "" {
      assert text + rest == rest && field + text == field;
    } else {
      assert (text + rest)[1..] == text[1..] + rest;
      assert field + [text[0]] + text[1..] == field + text;
      PlainTextIsTaken(text[1..], rest, field + [text[0]]);
    }
  }

  lemma FieldIsTaken(field: string, rest: string)
    requires IsPlain(field)
    ensures Tokens(RenderField(field) + rest, "", false) == Tokens(rest, field, false)
  {
    var s := RenderField(field) + rest;
    assert s[1..] == field + ("\"" + rest);
    PlainTextIsTaken(field, "\"" + rest, "");
    assert "" + field == field;
    assert ("\"" + rest)[1..] == rest;
  }

  lemma {:induction false} PlainRowRoundTrips(row: Row)
    requires row != [] && PlainRow(row)
    ensures Tokens(RenderRow(row), "", false) == Some(row)
    decreases |row|
  {
    if |row| == 1 {
      FieldIsTaken(row[0], "");
      assert RenderField(row[0]) + "" == RenderRow(row);
      assert [row[0]] == row;
    } else {
      var rest := "," + RenderRow(row[1..]);
      FieldIsTaken(row[0], rest);
      assert RenderField(row[0]) + rest == RenderRow(row);
      assert rest[1..] == RenderRow(row[1..]);
      PlainRowRoundTrips(row[1..]);
      assert [row[0]] + row[1..] == row;
    }
  }

  function Count(c: char, s: string): nat {
    if s == "" then 0 else (if s[0] == c then 1 else 0) + Count(c, s[1..])
  }

  function CountAll(c: char, row: Row): nat {
    if row == [] then 0 else Count(c, row[0]) + CountAll(c, row[1..])
  }

  lemma {:induction false} CountConcat(c: char, s: string, t: string)
    ensures Count(c, s + t) == Count(c, s) + Count(c, t)
    decreases |s|
  {
    if s == "" {
      assert s + t == t;
    } else {
      assert (s + t)[1..] == s[1..] + t;
      CountConcat(c, s[1..], t);
    }
  }

  lemma CountOne(c: char, s: string, d: char)
    ensures Count(c, s + [d]) == Count(c, s) + if c == d then 1 else 0
  {
    CountConcat(c, s, [d]);
    assert [d][1..] == "";
  }

  lemma {:induction false} CountRendered(row: Row)
    ensures Count('\\', RenderRow(row)) == CountAll('\\', row)
  {
    if row != [] {
      var f := row[0];
      CountConcat('\\', "\"" + f, "\"");
      CountConcat('\\', "\"", f);
      assert "\""[1..] == "";
      assert Count('\\', "\"") == 0;
      if |row| > 1 {
        CountRendered(row[1..]);
        CountConcat('\\', RenderField(f) + ",", RenderRow(row[1..]));
        CountOne('\\', RenderField(f), ',');
      } else {
        assert row[1..] == [];
      }
    }
  }

  /** Reading consumes a backslash wherever one occurs. */
  lemma {:induction false} BackslashesShrink(s: string, field: string, inQuote: bool)
    requires Tokens(s, field, inQuote).Some?
    ensures var n := CountAll('\\', Tokens(s, field, inQuote).value);
            if Count('\\', s) == 0 then n == Count('\\', field) else n < Count('\\', field) + Count('\\', s)
    decreases |s|
  {
    if s == "" {
      assert [field][1..] == [];
    } else if s[0] == '\\' {
      var d := if s[1] == 'n' then '\n' else s[1];
      CountOne('\\', field, d);
      assert s[1..][1..] == s[2..];
      BackslashesShrink(s[2..], field + [d], inQuote);
    } else if s[0] == ',' && !inQuote {
      BackslashesShrink(s[1..], "", false);
      var fields := Tokens(s[1..], "", false).value;
      assert ([field] + fields)[1..] == fields;
    } else if s[0] == '"' {
      BackslashesShrink(s[1..], field, !inQuote);
    } else {
      CountOne('\\', field, s[0]);
      BackslashesShrink(s[1..], field + [s[0]], inQuote);
    }
  }

  /** Without backslashes no field that is read contains a quote. */
  lemma {:induction false} QuotesVanish(s: string, field: string, inQuote: bool, i: nat)
    requires Tokens(s, field, inQuote).Some? && i < |Tokens(s, field, inQuote).value|
    requires '\\' !in s && '"' !in field
    ensures '"' !in Tokens(s, field, inQuote).value[i]
    decreases |s|
  {
    if s == "" {
    } else if s[0] == ',' && !inQuote {
      if i > 0 {
        QuotesVanish(s[1..], "", false, i - 1);
      }
    } else if s[0] == '"' {
      QuotesVanish(s[1..], field, !inQuote, i);
    } else {
      QuotesVanish(s[1..], field + [s[0]], inQuote, i);
    }
  }

  lemma {:induction false} CountFindsBackslash(s: string)
    ensures Count('\\', s) > 0 <==> '\\' in s
  {
    if s != "" {
      CountFindsBackslash(s[1..]);
      assert s == [s[0]] + s[1..];
    }
  }

  lemma {:induction false} CountAllFindsBackslash(row: Row, i: nat)
    requires i < |row| && '\\' in row[i]
    ensures CountAll('\\', row) > 0
  {
    if i == 0 {
      CountFindsBackslash(row[0]);
    } else {
      CountAllFindsBackslash(row[1..], i - 1);
    }
  }

  lemma RenderedRowIsNotEmpty(row: Row)
    requires row != []
    ensures RenderRow(row) != ""
  {}

  /** A row survives writing and reading exactly when no field contains a quote or a
      backslash: the writer escapes nothing. */
  lemma RowRoundTripsIff(row: Row)
    requires row != []
    ensures ParseRow(RenderRow(row)) == Some(row) <==> PlainRow(row)
  {
    RenderedRowIsNotEmpty(row);
    var text := RenderRow(row);
    if PlainRow(row) {
      PlainRowRoundTrips(row);
    } else if ParseRow(text) == Some(row) {
      var i :| 0 <= i < |row| && !IsPlain(row[i]);
      var k :| 0 <= k < |row[i]| && (row[i][k] == '"' || row[i][k] == '\\');
      CountRendered(row);
      BackslashesShrink(text, "", false);
      CountFindsBackslash(text);
      if CountAll('\\', row) == 0 {
        if row[i][k] == '\\' { CountAllFindsBackslash(row, i); }
        QuotesVanish(text, "", false, i);
      }
      assert false;
    }
  }

  // ---------------------------------------------------------------------
  // What the tokenizer reads
  // ---------------------------------------------------------------------

  function EscapeChar(c: char): string {
    match c
    case '\\' => "\\\\"
    case '"' => "\\\""
    case '\n' => "\\n"
    case _ => [c]
  }

  /** A field written so that the tokenizer can read it back. */
  function Escape(field: string): string {
    if field == "" then "" else EscapeChar(field[0]) + Escape(field[1..])
  }

  function EscapeRow(row: Row): Row {
    seq(|row|, i requires 0 <= i < |row| => Escape(row[i]))
  }

  lemma EscapedCharIsTaken(c: char, rest: string, field: string)
    ensures Tokens(EscapeChar(c) + rest, field, true) == Tokens(rest, field + [c], true)
  {
    var s := EscapeChar(c) + rest;
    assert s[|EscapeChar(c)|..] == rest;
  }

  lemma EscapeSplits(c: char, tail: string, rest: string, field: string)
    ensures Escape([c] + tail) + rest == EscapeChar(c) + (Escape(tail) + rest)
    ensures field + [c] + tail == field + ([c] + tail)
  {
    assert ([c] + tail)[1..] == tail;
  }

  lemma {:induction false} EscapedTextIsTaken(text: string, rest: string, field: string)
    ensures Tokens(Escape(text) + rest, field, true) == Tokens(rest, field + text, true)
    decreases |text|
  {
    if text == "" {
      assert Escape(text) + rest == rest && field + text == field;
    } else {
      var c, tail := text[0], text[1..];
      EscapedCharIsTaken(c, Escape(tail) + rest, field);
      EscapedTextIsTaken(tail, rest, field + [c]);
      EscapeSplits(c, tail, rest, field);
      assert [c] + tail == text;
    }
  }

  lemma EscapedFieldIsTaken(field: string, rest: string)
    ensures Tokens(RenderField(Escape(field)) + rest, "", false) == Tokens(rest, field, false)
  {
    var s := RenderField(Escape(field)) + rest;
    assert s[1..] == Escape(field) + ("\"" + rest);
    EscapedTextIsTaken(field, "\"" + rest, "");
    assert "" + field == field;
    assert ("\"" + rest)[1..] == rest;
  }

  /** Every row, whatever its fields hold, is read back from its escaped form. */
  lemma {:induction false} EscapedRowRoundTrips(row: Row)
    requires row != []
    ensures Tokens(RenderRow(EscapeRow(row)), "", false) == Some(row)
    decreases |row|
  {
    var escaped := EscapeRow(row);
    if |row| == 1 {
      EscapedFieldIsTaken(row[0], "");
      assert RenderField(escaped[0]) + "" == RenderRow(escaped);
      assert [row[0]] == row;
    } else {
      assert escaped[1..] == EscapeRow(row[1..]);
      var rest := "," + RenderRow(escaped[1..]);
      EscapedFieldIsTaken(row[0], rest);
      assert RenderField(escaped[0]) + rest == RenderRow(escaped);
      assert rest[1..] == RenderRow(escaped[1..]);
      EscapedRowRoundTrips(row[1..]);
      assert [row[0]] + row[1..] == row;
    }
  }

  predicate IsWord(s: string) {
    forall i :: 0 <= i < |s| ==> s[i] !in "\\,\""
  }

  /** The fields of a row separated by commas, without quotes. */
  function Unquoted(row: Row): string {
    if row == [] then "" else if |row| == 1 then row[0] else row[0] + "," + Unquoted(row[1..])
  }

  lemma {:induction false} WordIsTaken(word: string, rest: string, field: string)
    requires IsWord(word)
    ensures Tokens(word + rest, field, false) == Tokens(rest, field + word, false)
    decreases |word|
  {
    if word == "" {
      assert word + rest == rest && field + word == field;
    } else {
      assert (word + rest)[1..] == word[1..] + rest;
      assert field + [word[0]] + word[1..] == field + word;
      WordIsTaken(word[1..], rest, field + [word[0]]);
    }
  }

  /** Fields without backslash, comma and quote need no quotes to be read. */
  lemma {:induction false} UnquotedRowIsRead(row: Row)
    requires row != [] && forall i :: 0 <= i < |row| ==> IsWord(row[i])
    ensures Tokens(Unquoted(row), "", false) == Some(row)
    decreases |row|
  {
    var word := row[0];
    assert "" + word == word;
    if |row| == 1 {
      WordIsTaken(word, "", "");
      assert word + "" == word && [word] == row;
    } else {
      var rest := "," + Unquoted(row[1..]);
      WordIsTaken(word, rest, "");
      assert word + rest == Unquoted(row);
      assert rest[1..] == Unquoted(row[1..]);
      UnquotedRowIsRead(row[1..]);
      assert [word] + row[1..] == row;
    }
  }

  /** A backslash that is not taken by the one before it is followed by nothing, or by none of
      n, backslash, comma and quote. */
  predicate HasBadEscape(line: string) {
    line != "" &&
    if line[0] == '\\' then |line| == 1 || line[1] !in "n\\,\"" || HasBadEscape(line[2..])
    else HasBadEscape(line[1..])
  }

  /** The tokenizer raises an error if and only if the line has a bad escape. */
  lemma {:induction false} TokensFailIff(line: string, field: string, inQuote: bool)
    ensures Tokens(line, field, inQuote).None? <==> HasBadEscape(line)
    decreases |line|
  {
    if line == "" {
    } else if line[0] == '\\' {
      if |line| > 1 && line[1] in "n\\,\"" {
        TokensFailIff(line[2..], field + [if line[1] == 'n' then '\n' else line[1]], inQuote);
      }
    } else if line[0] == ',' && !inQuote {
      TokensFailIff(line[1..], "", false);
    } else if line[0] == '"' {
      TokensFailIff(line[1..], field, !inQuote);
    } else {
      TokensFailIff(line[1..], field + [line[0]], inQuote);
    }
  }

  // ---------------------------------------------------------------------
  // Round trip of a file
  // ---------------------------------------------------------------------

  lemma {:induction false} LineEndAt(line: string, rest: string)
    requires '\n' !in line
    ensures LineEnd(line + "\n" + rest) == |line|
  {
    var text := line + "\n" + rest;
    if line != "" {
      assert text[0] == line[0] && line[0] in line;
      assert text[1..] == line[1..] + "\n" + rest;
      LineEndAt(line[1..], rest);
    }
  }

  /** The first line of a file is read back if it holds no line end and fits the buffer;
      a longer line ends the reading. */
  lemma FirstLine(line: string, rest: string)
    requires '\n' !in line
    ensures NextLine(line + "\n" + rest) == if |line| < 1000000 then Some((line, rest)) else None
  {
    var text := line + "\n" + rest;
    LineEndAt(line, rest);
    assert text[..|line|] == line && text[|line| + 1..] == rest;
  }
}
