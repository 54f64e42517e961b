/**
 * What the route handlers see of HTTP and of zod: request-body fields as they
 * arrive from `req.json()`, the `(status, payload)` pair a handler answers with,
 * and the string-length rule that zod's `min`/`max` apply.
 */
module Http {
  import Seqs

  /** One field of a parsed JSON request body. */
  datatype Field<T> =
    | Missing                    // the key is absent (`undefined`)
    | Given(value: T)            // present with the type the schema expects
    | Mistyped(received: string) // present with another JSON type (`null`, a number, ...)

  /** The error payload of a non-2xx answer. */
  datatype ErrorBody =
    | Message(text: string)         // `{ error: "..." }`
    | Issues(paths: seq<string>)    // `{ error: zodError.issues }`, one entry per failing check

  /** `NextResponse.json(body)` (status 200) or `NextResponse.json({ error }, { status })`. */
  datatype Response<T> = Ok(body: T) | Fail(status: nat, error: ErrorBody)

  function Unauthorized401<T>(): (r: Response<T>)
    ensures r.Fail? && r.status == 401
  {
    Fail(401, Message("Unauthorized"))
  }

  function InternalError500<T>(): (r: Response<T>)
    ensures r.Fail? && r.status == 500
  {
    Fail(500, Message("Internal server error"))
  }

  /**
   * JavaScript's `s.length`: the number of UTF-16 code units, so a character
   * outside the Basic Multilingual Plane counts twice. zod's `min`/`max` on
   * strings compare this length.
   */
  function JsLength(s: string): (n: nat)
    ensures |s| <= n <= 2 * |s|
  {
    if s == [] then 0
    else JsLength(s[..|s| - 1]) + (if Astral(s[|s| - 1]) then 2 else 1)
  }

  /** A character outside the Basic Multilingual Plane, which UTF-16 writes as a surrogate pair. */
  predicate Astral(c: char)
  {
    c as int > 0xFFFF
  }

  /** The UTF-16 length is the number of characters plus one for each astral character. */
  lemma {:induction false} JsLengthCountsAstral(s: string)
    ensures JsLength(s) == |s| + |Seqs.Filter(s, Astral)|
  {
    if s != [] {
      var init, last := s[..|s| - 1], s[|s| - 1];
      JsLengthCountsAstral(init);
      assert s == init + [last];
      Seqs.FilterAppend(init, [last], Astral);
      assert [last][1..] == [];
      assert |Seqs.Filter([last], Astral)| == if Astral(last) then 1 else 0;
    }
  }

  /** The UTF-16 length of a concatenation is the sum of the lengths. */
  lemma JsLengthAppend(a: string, b: string)
    ensures JsLength(a + b) == JsLength(a) + JsLength(b)
  {
    JsLengthCountsAstral(a);
    JsLengthCountsAstral(b);
    JsLengthCountsAstral(a + b);
    Seqs.FilterAppend(a, b, Astral);
  }

  /** `z.string().min(lo).max(hi)` accepts the field. */
  predicate StringWithin(f: Field<string>, lo: nat, hi: nat)
  {
    f.Given? && lo <= JsLength(f.value) <= hi
  }

  /** `z.string().optional()` accepts the field. */
  predicate OptionalString(f: Field<string>)
  {
    !f.Mistyped?
  }

  /** `z.number().int().min(0)` accepts the number. */
  predicate IsNonNegativeInt(x: real)
  {
    x.Floor as real == x && x >= 0.0
  }

  /** The outcome of `schema.parse(body)`: the typed input, or the field of each failing check, in schema order. */
  datatype Parse<T, F> = Parsed(value: T) | Rejected(fields: seq<F>)

  /** A field's entry in the issue list: none when the field is accepted. */
  function Check<F>(accepted: bool, field: F): seq<F>
  {
    if accepted then [] else [field]
  }

  /** The `path` of each issue, in order. */
  function Paths<F>(fields: seq<F>, path: F -> string): (r: seq<string>)
    ensures |r| == |fields|
    ensures forall i :: 0 <= i < |fields| ==> r[i] == path(fields[i])
  {
    if fields == [] then [] else [path(fields[0])] + Paths(fields[1..], path)
  }

  /** The fields among `fields` that `accepted` refuses, in their order. */
  function Refused<F>(fields: seq<F>, accepted: F -> bool): (r: seq<F>)
    ensures |r| <= |fields|
    ensures forall i :: 0 <= i < |r| ==> !accepted(r[i]) && r[i] in fields
    ensures forall i :: 0 <= i < |fields| && !accepted(fields[i]) ==> fields[i] in r
  {
    if fields == [] then []
    else
      var rest := Refused(fields[1..], accepted);
      assert forall i :: 1 <= i < |fields| ==> fields[i] == fields[1..][i - 1];
      if accepted(fields[0]) then rest else [fields[0]] + rest
  }

  /**
   * The refused fields keep the order of `fields`: when `rank` strictly
   * increases along the fields (their schema position, say) it strictly
   * increases along the issue list, so no field is reported twice.
   */
  lemma {:induction false} RefusedInOrder<F>(fields: seq<F>, accepted: F -> bool, rank: F -> nat)
    requires forall i, j :: 0 <= i < j < |fields| ==> rank(fields[i]) < rank(fields[j])
    ensures forall i, j :: 0 <= i < j < |Refused(fields, accepted)| ==>
      rank(Refused(fields, accepted)[i]) < rank(Refused(fields, accepted)[j])
  {
    if fields != [] {
      var tail := fields[1..];
      assert forall i, j :: 0 <= i < j < |tail| ==> rank(tail[i]) < rank(tail[j]) by {
        forall i, j | 0 <= i < j < |tail| ensures rank(tail[i]) < rank(tail[j]) {
          assert tail[i] == fields[i + 1] && tail[j] == fields[j + 1];
        }
      }
      RefusedInOrder(tail, accepted, rank);
      var rest := Refused(tail, accepted);
      assert Refused(fields, accepted) == if accepted(fields[0]) then rest else [fields[0]] + rest;
      if !accepted(fields[0]) {
        forall k | 0 <= k < |rest| ensures rank(fields[0]) < rank(rest[k]) {
          var m :| 0 <= m < |tail| && tail[m] == rest[k];
          assert tail[m] == fields[m + 1];
        }
        RankedCons(fields[0], rest, rank);
      }
    }
  }

  /** Putting an element of smaller rank in front of a rank-ordered list keeps it rank-ordered. */
  lemma RankedCons<F>(x: F, rest: seq<F>, rank: F -> nat)
    requires forall k :: 0 <= k < |rest| ==> rank(x) < rank(rest[k])
    requires forall i, j :: 0 <= i < j < |rest| ==> rank(rest[i]) < rank(rest[j])
    ensures forall i, j :: 0 <= i < j < |[x] + rest| ==> rank(([x] + rest)[i]) < rank(([x] + rest)[j])
  {
    var r := [x] + rest;
    forall i, j | 0 <= i < j < |r| ensures rank(r[i]) < rank(r[j]) {
      assert r[j] == rest[j - 1];
      if i == 0 {
        assert r[i] == x;
      } else {
        assert r[i] == rest[i - 1];
      }
    }
  }
}
