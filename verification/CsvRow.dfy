/** parse_csv_row of arg.cpp: one row of comma-separated values with quoted fields. */
module CsvRow {
  /** The fields of a row, with `field` read so far of the first one. */
  function Fields(s: string, field: string, quoted: bool): (r: seq<string>)
    ensures |r| > 0
    decreases |s|
  {
    if s == "" then [field]
    else if s[0] == '"' then
      if !quoted then
        if field != "" then Fields(s[1..], field + "\"", false) else Fields(s[1..], field, true)
      else if |s| > 1 && s[1] == '"' then Fields(s[2..], field + "\"", true)
      else Fields(s[1..], field, false)
    else if s[0] == ',' && !quoted then [field] + Fields(s[1..], "", false)
    else Fields(s[1..], field + [s[0]], quoted)
  }

  function Row(s: string): seq<string> {
    Fields(s, "", false)
  }

  method ParseCsvRow(input: string) returns (fields: seq<string>)
    ensures fields == Row(input)
  {
    fields := [];
    var field, inQuotes, i := "", false, 0;
    assert input[0..] == input;
    while i < |input|
      invariant 0 <= i <= |input|
      invariant fields + Fields(input[i..], field, inQuotes) == Row(input)
    {
      ghost var rest := input[i..];
      var ch := input[i];
      if ch == '"' {
        if !inQuotes {
          if field != "" {
            field := field + "\"";
          } else {
            inQuotes := true;
          }
        } else if i + 1 < |input| && input[i + 1] == '"' {
          field := field + "\"";
          i := i + 1;
          assert rest[2..] == input[i + 1..];
        } else {
          inQuotes := false;
        }
      } else if ch == ',' {
        if inQuotes {
          field := field + ",";
        } else {
          fields := fields + [field];
          field := "";
        }
      } else {
        field := field + [ch];
      }
      i := i + 1;
      assert rest[1..] == input[|input| - |rest| + 1..];
    }
    fields := fields + [field];
  }

  // ---- writing and reading -------------------------------------------------------------------

  function Doubled(s: string): string {
    if s == "" then "" else (if s[0] == '"' then "\"\"" else [s[0]]) + Doubled(s[1..])
  }

  /** A field in quotes, with its own quotes doubled. */
  function Quoted(field: string): string {
    "\"" + Doubled(field) + "\""
  }

  function Written(fields: seq<string>): string
    requires fields != []
  {
    if |fields| == 1 then Quoted(fields[0]) else Quoted(fields[0]) + "," + Written(fields[1..])
  }

  /** Inside the quotes everything is taken, up to a quote that is not doubled. */
  lemma {:induction false} InsideQuotes(field: string, read: string, rest: string)
    requires rest != "" ==> rest[0] != '"'
    ensures Fields(Doubled(field) + "\"" + rest, read, true) == Fields(rest, read + field, false)
  {
    var text := Doubled(field) + "\"" + rest;
    if field == "" {
      assert text[1..] == rest && read + field == read;
    } else {
      var c := field[0];
      var head := if c == '"' then "\"\"" else [c];
      var more := Doubled(field[1..]) + "\"" + rest;
      assert text == head + more;
      InsideQuotes(field[1..], read + [c], rest);
      assert read + [c] + field[1..] == read + field;
      assert text[|head|..] == more;
    }
  }

  lemma QuotedField(field: string, rest: string)
    requires rest != "" ==> rest[0] != '"'
    ensures Fields(Quoted(field) + rest, "", false) == Fields(rest, field, false)
  {
    var text := Quoted(field) + rest;
    assert text[1..] == Doubled(field) + "\"" + rest;
    InsideQuotes(field, "", rest);
    assert "" + field == field;
  }

  /** Every nonempty list of fields is read back from its quoted form, whatever the fields hold. */
  lemma {:induction false} RowReadsWritten(fields: seq<string>)
    requires fields != []
    ensures Row(Written(fields)) == fields
  {
    hide Quoted;
    if |fields| == 1 {
      QuotedField(fields[0], "");
      assert Quoted(fields[0]) + "" == Quoted(fields[0]);
    } else {
      var rest := "," + Written(fields[1..]);
      RowReadsWritten(fields[1..]);
      QuotedField(fields[0], rest);
      assert Written(fields) == Quoted(fields[0]) + rest;
      assert rest[1..] == Written(fields[1..]);
    }
  }

  // ---- rows side by side ---------------------------------------------------------------------

  /** Whether a row ends outside quotes. */
  predicate Balanced(s: string, field: string, quoted: bool)
    decreases |s|
  {
    if s == "" then !quoted
    else if s[0] == '"' then
      if !quoted then
        if field != "" then Balanced(s[1..], field + "\"", false) else Balanced(s[1..], field, true)
      else if |s| > 1 && s[1] == '"' then Balanced(s[2..], field + "\"", true)
      else Balanced(s[1..], field, false)
    else if s[0] == ',' && !quoted then Balanced(s[1..], "", false)
    else Balanced(s[1..], field + [s[0]], quoted)
  }

  lemma {:induction false} FieldsConcatenate(s: string, field: string, quoted: bool, more: string)
    ensures Balanced(s, field, quoted) ==>
      Fields(s + "," + more, field, quoted) == Fields(s, field, quoted) + Row(more)
    ensures !Balanced(s, field, quoted) ==> |Fields(s + ",", field, quoted)| == |Fields(s, field, quoted)|
    decreases |s|
  {
    var (long, one) := (s + "," + more, s + ",");
    if s == "" {
      assert long[1..] == more && one[1..] == "";
    } else if s[0] == '"' && quoted && |s| > 1 && s[1] == '"' {
      assert long[2..] == s[2..] + "," + more && one[2..] == s[2..] + ",";
      FieldsConcatenate(s[2..], field + "\"", true, more);
    } else {
      var rest := s[1..];
      assert long[1..] == rest + "," + more && one[1..] == rest + ",";
      if s[0] == '"' && !quoted && field != "" {
        FieldsConcatenate(rest, field + "\"", false, more);
      } else if s[0] == '"' {
        FieldsConcatenate(rest, field, !quoted, more);
      } else if s[0] == ',' && !quoted {
        FieldsConcatenate(rest, "", false, more);
        assert [field] + (Fields(rest, "", false) + Row(more)) == [field] + Fields(rest, "", false) + Row(more);
      } else {
        FieldsConcatenate(rest, field + [s[0]], quoted, more);
      }
    }
  }

  /** A comma and more text add the fields of that text exactly if the row ends outside quotes. */
  lemma RowsConcatenateIff(s: string)
    ensures (forall more :: Row(s + "," + more) == Row(s) + Row(more)) <==> Balanced(s, "", false)
  {
    hide Fields, Balanced;
    forall more ensures Balanced(s, "", false) ==> Row(s + "," + more) == Row(s) + Row(more) {
      FieldsConcatenate(s, "", false, more);
    }
    if !Balanced(s, "", false) {
      FieldsConcatenate(s, "", false, "");
      assert s + "," + "" == s + ",";
      assert Row(s + "," + "") != Row(s) + Row("");
    }
  }

  // ---- fields without quotes -----------------------------------------------------------------

  /** A field that may be written as it is: quotes behind its first character are its own. */
  predicate IsPlain(field: string) {
    ',' !in field && (field != "" ==> field[0] != '"')
  }

  /** Each field is written as it is or in quotes. */
  function Mixed(fields: seq<string>, plain: seq<bool>): string
    requires |fields| == |plain| > 0
  {
    var first := if plain[0] then fields[0] else Quoted(fields[0]);
    if |fields| == 1 then first else first + ("," + Mixed(fields[1..], plain[1..]))
  }

  lemma {:induction false} PlainField(field: string, read: string, rest: string)
    requires ',' !in field && (read != "" || IsPlain(field))
    ensures Fields(field + rest, read, false) == Fields(rest, read + field, false)
    decreases |field|
  {
    var text := field + rest;
    if field == "" {
      assert text == rest && read + field == read;
    } else {
      assert text[1..] == field[1..] + rest;
      assert read + [field[0]] + field[1..] == read + field;
      PlainField(field[1..], read + [field[0]], rest);
    }
  }

  /** Every nonempty list of fields is read back, however quotes are used where they are not needed. */
  lemma {:induction false} MixedRowIsRead(fields: seq<string>, plain: seq<bool>)
    requires |fields| == |plain| > 0 && forall i :: 0 <= i < |fields| && plain[i] ==> IsPlain(fields[i])
    ensures Row(Mixed(fields, plain)) == fields
    decreases |fields|
  {
    hide Quoted, IsPlain;
    var rest := if |fields| == 1 then "" else "," + Mixed(fields[1..], plain[1..]);
    FirstField(fields[0], plain[0], rest);
    var first := if plain[0] then fields[0] else Quoted(fields[0]);
    if |fields| == 1 {
      assert first + "" == first;
    } else {
      assert rest[1..] == Mixed(fields[1..], plain[1..]);
      assert forall i :: 0 <= i < |fields| - 1 ==> fields[1..][i] == fields[i + 1] && plain[1..][i] == plain[i + 1];
      MixedRowIsRead(fields[1..], plain[1..]);
    }
  }

  lemma FirstField(field: string, plain: bool, rest: string)
    requires plain ==> IsPlain(field)
    requires rest != "" ==> rest[0] != '"'
    ensures Fields((if plain then field else Quoted(field)) + rest, "", false) == Fields(rest, field, false)
  {
    hide Quoted, Fields;
    if plain {
      PlainField(field, "", rest);
      assert "" + field == field;
    } else {
      QuotedField(field, rest);
    }
  }
}
