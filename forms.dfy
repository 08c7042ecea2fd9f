/** Required-field validation shared by the three form handlers: each keeps a
    fixed list of field names and filters it down to those whose value is
    absent or whitespace only (`fields.filter((f) => !payload[f]?.trim())`),
    and reports the result as `Missing fields: a, b.`. */
module Forms {
  import opened Wrappers
  import opened Strings

  /** One named property of a request payload. */
  datatype Field = Field(name: string, value: Option<string>)

  function Names(fields: seq<Field>): (r: seq<string>)
    ensures |r| == |fields|
    ensures forall i :: 0 <= i < |fields| ==> r[i] == fields[i].name
  {
    if fields == [] then [] else [fields[0].name] + Names(fields[1..])
  }

  /** `a` can be obtained from `b` by deleting elements: same elements, same
      relative order. */
  predicate IsSubsequence(a: seq<string>, b: seq<string>) {
    if a == [] then true
    else if b == [] then false
    else if a[0] == b[0] then IsSubsequence(a[1..], b[1..])
    else IsSubsequence(a, b[1..])
  }

  /** The names of the blank fields, in the order of the field list. */
  function MissingFields(fields: seq<Field>): (r: seq<string>)
    ensures IsSubsequence(r, Names(fields))
    ensures forall i :: 0 <= i < |fields| && Blank(fields[i].value) ==> fields[i].name in r
    ensures forall n :: n in r ==> exists i :: 0 <= i < |fields| && fields[i].name == n && Blank(fields[i].value)
  {
    if fields == [] then []
    else
      var rest := MissingFields(fields[1..]);
      assert Names(fields)[1..] == Names(fields[1..]);
      ShiftWitnesses(fields, rest);
      if Blank(fields[0].value) then
        [fields[0].name] + rest
      else
        SubsequenceSkip(rest, fields[0].name, Names(fields[1..]));
        rest
  }

  /** A blank field of the tail that names `n` is a blank field of the list. */
  lemma ShiftWitnesses(fields: seq<Field>, rest: seq<string>)
    requires fields != []
    requires forall n :: n in rest ==> exists i :: 0 <= i < |fields[1..]| && fields[1..][i].name == n && Blank(fields[1..][i].value)
    ensures forall n :: n in rest ==> exists i :: 0 <= i < |fields| && fields[i].name == n && Blank(fields[i].value)
  {
    forall n | n in rest
      ensures exists i :: 0 <= i < |fields| && fields[i].name == n && Blank(fields[i].value)
    {
      var i :| 0 <= i < |fields[1..]| && fields[1..][i].name == n && Blank(fields[1..][i].value);
      assert fields[i + 1] == fields[1..][i];
    }
  }

  /** Prepending an element to the longer sequence keeps a subsequence one. */
  lemma {:induction false} SubsequenceSkip(a: seq<string>, x: string, b: seq<string>)
    requires IsSubsequence(a, b)
    ensures IsSubsequence(a, [x] + b)
    decreases |a| + |b| + 1
  {
    if a != [] && a[0] == x {
      SubsequenceTail(a, b);
      assert ([x] + b)[1..] == b;
    }
  }

  /** Dropping the first element of a subsequence keeps it a subsequence. */
  lemma {:induction false} SubsequenceTail(a: seq<string>, b: seq<string>)
    requires a != [] && IsSubsequence(a, b)
    ensures IsSubsequence(a[1..], b)
    decreases |a| + |b|
  {
    if a[0] == b[0] {
      SubsequenceSkip(a[1..], b[0], b[1..]);
      assert [b[0]] + b[1..] == b;
    } else {
      SubsequenceTail(a, b[1..]);
      SubsequenceSkip(a[1..], b[0], b[1..]);
      assert [b[0]] + b[1..] == b;
    }
  }

  /** Nothing is missing exactly when every field has a non-blank value. */
  lemma NoneMissing(fields: seq<Field>)
    ensures MissingFields(fields) == [] <==> forall i :: 0 <= i < |fields| ==> !Blank(fields[i].value)
  {
    var r := MissingFields(fields);
    if r != [] {
      assert r[0] in r;
    }
  }

  /** With distinct names, a field is reported exactly when it is blank. */
  lemma MissingExactly(fields: seq<Field>, k: nat)
    requires k < |fields|
    requires forall i, j :: 0 <= i < j < |fields| ==> fields[i].name != fields[j].name
    ensures fields[k].name in MissingFields(fields) <==> Blank(fields[k].value)
  {
    if fields[k].name in MissingFields(fields) {
      var i :| 0 <= i < |fields| && fields[i].name == fields[k].name && Blank(fields[i].value);
      assert i == k;
    }
  }

  /** The blank test over a list of values, spelled out for five values. */
  lemma AllPresent(values: seq<Option<string>>)
    requires |values| == 5
    ensures (forall i :: 0 <= i < 5 ==> !Blank(values[i])) <==>
              !Blank(values[0]) && !Blank(values[1]) && !Blank(values[2]) && !Blank(values[3]) && !Blank(values[4])
  {
    if !Blank(values[0]) && !Blank(values[1]) && !Blank(values[2]) && !Blank(values[3]) && !Blank(values[4]) {
      forall i | 0 <= i < 5 ensures !Blank(values[i]) {
        if i == 0 {} else if i == 1 {} else if i == 2 {} else if i == 3 {} else {}
      }
    }
  }

  /** The 400 message: the missing names joined by a comma and a space, after "Missing fields: " and before a full stop. */
  function MissingMessage(missing: seq<string>): (m: string)
    ensures |m| == 17 + |Join(missing, ", ")|
    ensures m[..16] == "Missing fields: " && m[16..|m| - 1] == Join(missing, ", ") && m[|m| - 1] == '.'
  {
    "Missing fields: " + Join(missing, ", ") + "."
  }
}
