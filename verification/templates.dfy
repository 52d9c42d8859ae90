/**
 * `str.format` as the rule templates use it: a template is a sequence of literal text and
 * `{name}` replacement fields, each field replaced by the value supplied under its name.
 */
module Templates {
  import opened Results

  /** A piece of a `str.format` template: literal text or a `{name}` replacement field. */
  datatype Piece = Lit(text: string) | Field(name: string)

  /** `template.format(**fields)`: `KeyError` for a field that is not supplied. */
  function Render(t: seq<Piece>, fields: map<string, string>): (r: Result<string, PyError>)
    ensures r.Ok? <==> forall i :: 0 <= i < |t| && t[i].Field? ==> t[i].name in fields
  {
    if t == [] then Ok("")
    else
      var head :- match t[0]
        case Lit(s) => Ok(s)
        case Field(n) => if n in fields then Ok(fields[n]) else Err(KeyError);
      var rest :- Render(t[1..], fields);
      assert forall i :: 1 <= i < |t| ==> t[i] == t[1..][i - 1];
      Ok(head + rest)
  }

  /** A replacement field renders as the value supplied for it. */
  lemma RenderField(n: string, fields: map<string, string>)
    requires n in fields
    ensures Render([Field(n)], fields) == Ok(fields[n])
  {
    assert [Field(n)][1..] == [];
    assert fields[n] + "" == fields[n];
  }

  /** A literal renders as its text. */
  lemma RenderLiteral(text: string, fields: map<string, string>)
    ensures Render([Lit(text)], fields) == Ok(text)
  {
    assert [Lit(text)][1..] == [];
    assert text + "" == text;
  }

  /**
   * A template renders piece by piece: the rendering of two templates in a row is the
   * rendering of the first followed by that of the second, and fails when either fails.
   */
  lemma {:induction false} RenderConcat(t1: seq<Piece>, t2: seq<Piece>, fields: map<string, string>)
    ensures Render(t1 + t2, fields).Ok? <==> Render(t1, fields).Ok? && Render(t2, fields).Ok?
    ensures Render(t1 + t2, fields).Ok? ==>
      Render(t1 + t2, fields).value == Render(t1, fields).value + Render(t2, fields).value
    decreases |t1|
  {
    if t1 == [] {
      assert t1 + t2 == t2;
    } else {
      var t := t1 + t2;
      assert t[0] == t1[0] && t[1..] == t1[1..] + t2;
      RenderCons(t1, fields);
      RenderCons(t, fields);
      RenderConcat(t1[1..], t2, fields);
      var h, a, b := Render([t1[0]], fields), Render(t1[1..], fields), Render(t2, fields);
      if h.Ok? && a.Ok? && b.Ok? {
        assert h.value + (a.value + b.value) == (h.value + a.value) + b.value;
      }
    }
  }

  /** A non-empty template renders as its first piece followed by the rest. */
  lemma RenderCons(t: seq<Piece>, fields: map<string, string>)
    requires t != []
    ensures Render(t, fields).Ok? <==> Render([t[0]], fields).Ok? && Render(t[1..], fields).Ok?
    ensures Render(t, fields).Ok? ==>
      Render(t, fields).value == Render([t[0]], fields).value + Render(t[1..], fields).value
  {
    assert [t[0]][1..] == [];
  }

  /** The text of a template made of literals only. */
  function Literal(t: seq<Piece>): string {
    if t == [] then "" else (if t[0].Lit? then t[0].text else "") + Literal(t[1..])
  }

  /** A template without replacement fields renders as its text, whatever the fields. */
  lemma {:induction false} RenderLiterals(t: seq<Piece>, fields: map<string, string>)
    requires forall i :: 0 <= i < |t| ==> t[i].Lit?
    ensures Render(t, fields) == Ok(Literal(t))
  {
    if t != [] {
      assert forall i :: 0 <= i < |t[1..]| ==> t[1..][i] == t[i + 1];
      RenderLiterals(t[1..], fields);
    }
  }

  /** The only exception rendering raises is `KeyError`. */
  lemma {:induction false} RenderError(t: seq<Piece>, fields: map<string, string>)
    ensures Render(t, fields).Err? ==> Render(t, fields).error == KeyError
  {
    if t != [] {
      RenderError(t[1..], fields);
    }
  }
}
