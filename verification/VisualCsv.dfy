/**
 `parseVisualCsvRecord`: the reader of one fully quoted CSV record, and the printer it is
 the exact inverse of (rules 5 to 7 of section 2 of RFC 4180).
 */
module VisualCsv {
  import opened Wrappers
  import opened Utf16

  // Printing

  function Doubled(field: Text): Text {
    if field == [] then []
    else (if field[0] == QUOTE then [QUOTE, QUOTE] else [field[0]]) + Doubled(field[1..])
  }

  function PrintField(field: Text): Text {
    [QUOTE] + Doubled(field) + [QUOTE]
  }

  function PrintRecord(fields: seq<Text>): Text {
    if fields == [] then []
    else if |fields| == 1 then PrintField(fields[0])
    else PrintField(fields[0]) + [COMMA] + PrintRecord(fields[1..])
  }

  // Reading

  function Extended(value: Text, rest: Option<(Text, Text)>): Option<(Text, Text)> {
    if rest.None? then None else Some((value + rest.value.0, rest.value.1))
  }

  /** A field after its opening quote, and the text after its closing quote. */
  function ReadField(t: Text): (r: Option<(Text, Text)>)
    ensures r.Some? ==> |r.value.1| < |t|
  {
    if t == [] then None
    else if t[0] != QUOTE then Extended([t[0]], ReadField(t[1..]))
    else if |t| > 1 && t[1] == QUOTE then Extended([QUOTE], ReadField(t[2..]))
    else Some(([], t[1..]))
  }

  function Appended(fields: seq<Text>, rest: Option<seq<Text>>): Option<seq<Text>> {
    if rest.None? then None else Some(fields + rest.value)
  }

  /** One or more fields. */
  function ReadFields(t: Text): Option<seq<Text>>
    decreases |t|
  {
    if t == [] || t[0] != QUOTE then None
    else
      var field := ReadField(t[1..]);
      if field.None? then None
      else
        var (value, rest) := field.value;
        if rest == [] then Some([value])
        else if rest[0] != COMMA then None
        else Appended([value], ReadFields(rest[1..]))
  }

  function ReadRecord(line: Text): Option<seq<Text>> {
    if line == [] then Some([]) else ReadFields(line)
  }

  lemma {:induction false} ReadPrintedField(field: Text, rest: Text)
    requires rest == [] || rest[0] != QUOTE
    ensures ReadField(Doubled(field) + [QUOTE] + rest) == Some((field, rest))
  {
    var t := Doubled(field) + [QUOTE] + rest;
    if field == [] {
      assert t[1..] == rest;
    } else {
      ReadPrintedField(field[1..], rest);
      var tail := Doubled(field[1..]) + [QUOTE] + rest;
      if field[0] == QUOTE {
        assert t[2..] == tail;
      } else {
        assert t[1..] == tail;
      }
      assert field == [field[0]] + field[1..];
    }
  }

  lemma {:induction false} ReadPrintedRecord(fields: seq<Text>)
    requires fields != []
    ensures ReadFields(PrintRecord(fields)) == Some(fields)
  {
    var t := PrintRecord(fields);
    if |fields| == 1 {
      assert t[1..] == Doubled(fields[0]) + [QUOTE] + [];
      ReadPrintedField(fields[0], []);
      assert fields == [fields[0]];
    } else {
      var after := [COMMA] + PrintRecord(fields[1..]);
      assert t[1..] == Doubled(fields[0]) + [QUOTE] + after;
      ReadPrintedField(fields[0], after);
      assert after[1..] == PrintRecord(fields[1..]);
      ReadPrintedRecord(fields[1..]);
      assert fields == [fields[0]] + fields[1..];
    }
  }

  lemma {:induction false} ReadFieldSound(t: Text)
    requires ReadField(t).Some?
    ensures t == Doubled(ReadField(t).value.0) + [QUOTE] + ReadField(t).value.1
  {
    var (value, rest) := ReadField(t).value;
    if t[0] != QUOTE {
      ReadFieldSound(t[1..]);
      assert value[1..] == ReadField(t[1..]).value.0;
    } else if |t| > 1 && t[1] == QUOTE {
      ReadFieldSound(t[2..]);
      assert value[1..] == ReadField(t[2..]).value.0;
    }
  }

  lemma {:induction false} ReadFieldsSound(t: Text)
    requires ReadFields(t).Some?
    ensures ReadFields(t).value != [] && PrintRecord(ReadFields(t).value) == t
    decreases |t|
  {
    ReadFieldSound(t[1..]);
    var (value, rest) := ReadField(t[1..]).value;
    assert t == [QUOTE] + t[1..];
    if rest != [] {
      ReadFieldsSound(rest[1..]);
      assert rest == [COMMA] + rest[1..];
      assert ReadFields(t).value[1..] == ReadFields(rest[1..]).value;
    }
  }

  /** A line is accepted as a list of fields exactly when it is the print of that list. */
  lemma ReadsExactlyPrinted(line: Text, fields: seq<Text>)
    ensures ReadRecord(line) == Some(fields) <==> line == PrintRecord(fields)
  {
    if fields != [] {
      ReadPrintedRecord(fields);
    }
    if line != [] && ReadRecord(line).Some? {
      ReadFieldsSound(line);
    }
  }

  // The program

  /** The inner loop: the rest of a field from `start`, just after its opening quote. */
  method ParseField(line: Text, start: nat) returns (r: Option<(Text, nat)>)
    requires start <= |line|
    ensures r.None? <==> ReadField(line[start..]).None?
    ensures r.Some? ==> start < r.value.1 <= |line| && ReadField(line[start..]) == Some((r.value.0, line[r.value.1..]))
  {
    var cursor := start;
    var value: Text := [];
    ExtendedNothing(ReadField(line[start..]));
    while cursor < |line|
      invariant start <= cursor <= |line|
      invariant ReadField(line[start..]) == Extended(value, ReadField(line[cursor..]))
      decreases |line| - cursor
    {
      var character := line[cursor];
      ghost var rest := line[cursor..];
      assert rest[0] == character && rest[1..] == line[cursor + 1..];
      if character != QUOTE {
        ExtendedTwice(value, [character], ReadField(line[cursor + 1..]));
        value := value + [character];
        cursor := cursor + 1;
        continue;
      }
      if cursor + 1 < |line| && line[cursor + 1] == QUOTE {
        assert rest[2..] == line[cursor + 2..];
        ExtendedTwice(value, [QUOTE], ReadField(line[cursor + 2..]));
        value := value + [QUOTE];
        cursor := cursor + 2;
        continue;
      }
      assert value + [] == value;
      return Some((value, cursor + 1));
    }
    return None;
  }

  lemma ExtendedNothing(r: Option<(Text, Text)>)
    ensures Extended([], r) == r
  {
    if r.Some? { assert [] + r.value.0 == r.value.0; }
  }

  lemma ExtendedTwice(a: Text, b: Text, r: Option<(Text, Text)>)
    ensures Extended(a, Extended(b, r)) == Extended(a + b, r)
  {
    if r.Some? { assert a + (b + r.value.0) == a + b + r.value.0; }
  }

  /** The fields of a line, or nothing when the line is not a fully quoted record. */
  method ParseRecord(line: Text) returns (r: Option<seq<Text>>)
    ensures r.Some? ==> line == PrintRecord(r.value)
    ensures r.None? ==> forall fields :: line != PrintRecord(fields)
  {
    r := ParseFields(line);
    forall fields ensures ReadRecord(line) == Some(fields) <==> line == PrintRecord(fields) {
      ReadsExactlyPrinted(line, fields);
    }
  }

  /** One step of the outer loop: the field found, and what the rest must still give. */
  lemma FieldThenRest(line: Text, cursor: nat, value: Text, end: nat)
    requires cursor < end <= |line|
    requires line[cursor] == QUOTE && ReadField(line[cursor + 1..]) == Some((value, line[end..]))
    ensures ReadFields(line[cursor..]) ==
      if end == |line| then Some([value])
      else if line[end] == COMMA then Appended([value], ReadFields(line[end + 1..]))
      else None
  {
    var rest := line[cursor..];
    assert rest[1..] == line[cursor + 1..];
    if end < |line| {
      assert line[end..][1..] == line[end + 1..];
    }
  }

  /** The outer loop, one field and its comma at a time. */
  method ParseFields(line: Text) returns (r: Option<seq<Text>>)
    ensures r == ReadRecord(line)
  {
    var values: seq<Text> := [];
    var cursor := 0;
    assert line[0..] == line;
    AppendedNothing(ReadFields(line));
    while cursor < |line|
      invariant 0 <= cursor <= |line|
      invariant cursor == |line| ==> line == []
      invariant cursor == 0 ==> values == []
      invariant line != [] ==> ReadFields(line) == Appended(values, ReadFields(line[cursor..]))
      decreases |line| - cursor
    {
      assert line[cursor..][0] == line[cursor] && line[cursor..][1..] == line[cursor + 1..];
      if line[cursor] != QUOTE {
        return None;
      }
      var field := ParseField(line, cursor + 1);
      if field.None? {
        return None;
      }
      var (value, end) := field.value;
      FieldThenRest(line, cursor, value, end);
      AppendedTwice(values, [value], if end < |line| then ReadFields(line[end + 1..]) else None);
      values := values + [value];
      if end == |line| {
        return Some(values);
      }
      if line[end] != COMMA {
        return None;
      }
      cursor := end + 1;
      if cursor == |line| {
        return None;
      }
    }
    return Some(values);
  }

  lemma AppendedNothing(r: Option<seq<Text>>)
    ensures Appended([], r) == r
  {
    if r.Some? { assert [] + r.value == r.value; }
  }

  lemma AppendedTwice(a: seq<Text>, b: seq<Text>, r: Option<seq<Text>>)
    ensures Appended(a, Appended(b, r)) == Appended(a + b, r)
  {
    if r.Some? { assert a + (b + r.value) == a + b + r.value; }
  }
}
