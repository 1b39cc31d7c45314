/**
 Comma-separated fields. Every field pattern of the two sentence grammars is
 free of commas and is followed by a literal comma, so a successful match
 cuts the line at its first commas; this module does that cutting.
 */
module Fields {
  import opened Options

  /** The fields, each followed by its comma. */
  function Terminated(fields: seq<string>): string
  {
    if |fields| == 0 then "" else fields[0] + "," + Terminated(fields[1..])
  }

  /** No field contains a comma. */
  predicate CommaFree(fields: seq<string>) {
    forall i :: 0 <= i < |fields| ==> ',' !in fields[i]
  }

  /** The text up to the first comma, and the text after it; `None` when there is no comma. */
  function NextField(s: string): (r: Option<(string, string)>)
    ensures r.None? <==> ',' !in s
    ensures r.Some? ==> ',' !in r.value.0 && s == r.value.0 + "," + r.value.1
  {
    if |s| == 0 then None
    else if s[0] == ',' then Some(("", s[1..]))
    else match NextField(s[1..])
      case None => None
      case Some((field, rest)) => Some(([s[0]] + field, rest))
  }

  /** The first `n` comma-terminated fields of `s` and what follows them. */
  function TakeFields(s: string, n: nat): (r: Option<(seq<string>, string)>)
    ensures r.Some? ==> |r.value.0| == n && CommaFree(r.value.0) && s == Terminated(r.value.0) + r.value.1
    decreases n
  {
    if n == 0 then Some(([], s))
    else match NextField(s)
      case None => None
      case Some((field, rest)) =>
        match TakeFields(rest, n - 1)
        case None => None
        case Some((fields, tail)) =>
          assert Terminated([field] + fields) == field + "," + Terminated(fields) by {
            assert ([field] + fields)[1..] == fields;
          }
          Some(([field] + fields, tail))
  }

  /** A comma-free field followed by a comma is cut off whole. */
  lemma {:induction false} NextFieldOfText(field: string, rest: string)
    requires ',' !in field
    ensures NextField(field + "," + rest) == Some((field, rest))
  {
    if |field| > 0 {
      assert (field + "," + rest)[1..] == field[1..] + "," + rest;
      NextFieldOfText(field[1..], rest);
      assert [field[0]] + field[1..] == field;
    }
  }

  /** Cutting `|fields|` fields off their own rendering gives them back, with the tail untouched. */
  lemma {:induction false} TakeFieldsOfTerminated(fields: seq<string>, tail: string)
    requires CommaFree(fields)
    ensures TakeFields(Terminated(fields) + tail, |fields|) == Some((fields, tail))
  {
    if |fields| > 0 {
      var rest := Terminated(fields[1..]) + tail;
      assert Terminated(fields) + tail == fields[0] + "," + rest;
      NextFieldOfText(fields[0], rest);
      assert CommaFree(fields[1..]);
      TakeFieldsOfTerminated(fields[1..], tail);
      assert [fields[0]] + fields[1..] == fields;
      assert TakeFields(fields[0] + "," + rest, |fields|) == Some(([fields[0]] + fields[1..], tail));
    } else {
      assert Terminated(fields) + tail == tail;
    }
  }
}
