/** `SerdeValue` and its heuristic error-message extractor (src/value.rs):
    given a JSON body of unknown shape, find the most plausible human-readable
    error text in it, and never fail. */
module Value {
  import opened Wrappers
  import opened JsonValue

  /** The two `serde_json` printers the extractor calls, which are outside this
      model: `Value::to_string` (compact) and `to_string_pretty`, which can fail. */
  datatype Printer = Printer(compact: Json -> string, pretty: Json -> Option<string>)

  /** Candidate field names, highest priority first. */
  const ErrorFields: seq<string> := [
    "error", "err", "message", "detail", "details",
    "description", "errorMessage", "error_message", "reason", "title"
  ]

  /** Returned when an object yields nothing and cannot even be pretty-printed. */
  const UnknownErrorFormat: string := "Unknown error format"

  /** `SerdeValue::extract_error_from_json`. Strings come back verbatim, other
      non-objects as their compact serialisation, objects through the field scan. */
  function ExtractError(v: Json, p: Printer): (r: string)
    ensures v.String? ==> r == v.s
    ensures !v.String? && !v.Object? ==> r == p.compact(v)
    decreases v, 2, 0
  {
    match v
    case Object(_) => Scan(v, ErrorFields, p)
    case String(s) => s
    case _ => p.compact(v)
  }

  /** What the candidate field `name` of `obj` contributes: `Some(text)` ends the
      scan with `text`, `None` moves on. A string is taken as it is, even when
      empty; an object is searched recursively and counts only when the nested
      result is non-empty; a missing field or any other kind of value is skipped. */
  function Yield(obj: Json, name: string, p: Printer): (r: Option<string>)
    requires obj.Object?
    ensures Get(obj, name).Some? && Get(obj, name).value.String? ==> r == Some(Get(obj, name).value.s)
    ensures r.Some? ==> Get(obj, name).Some?
    ensures r.Some? ==> Get(obj, name).value.String? || (Get(obj, name).value.Object? && r.value != "")
    ensures Get(obj, name).Some? && Get(obj, name).value.Object? ==>
              r == (if ExtractError(Get(obj, name).value, p) != "" then Some(ExtractError(Get(obj, name).value, p)) else None)
    decreases obj, 0, 0
  {
    match Get(obj, name)
    case None => None
    case Some(field) =>
      match field
      case String(s) => Some(s)
      case Object(_) =>
        var nested := ExtractError(field, p);
        if nested != "" then Some(nested) else None
      case _ => None
  }

  /** The `for field in &error_fields` loop over the remaining `names`, falling
      back to the printed object when it runs out. */
  function Scan(obj: Json, names: seq<string>, p: Printer): (r: string)
    requires obj.Object?
    ensures r == Fallback(obj, p) || exists i :: 0 <= i < |names| && Yield(obj, names[i], p) == Some(r)
    decreases obj, 1, |names|
  {
    if names == [] then Fallback(obj, p)
    else
      match Yield(obj, names[0], p)
      case Some(s) => s
      case None =>
        assert forall i :: 1 <= i < |names| ==> names[1..][i - 1] == names[i];
        Scan(obj, names[1..], p)
  }

  /** `to_string_pretty(..).unwrap_or_else(|_| "Unknown error format")`. */
  function Fallback(obj: Json, p: Printer): (r: string)
    ensures p.pretty(obj).Some? ==> r == p.pretty(obj).value
    ensures p.pretty(obj).None? ==> r == UnknownErrorFormat
  {
    p.pretty(obj).GetOr(UnknownErrorFormat)
  }

  /* ---------------------------------------------------------------------- */
  /* The scan, read declaratively                                            */
  /* ---------------------------------------------------------------------- */

  /** Candidate `names[i]` is the first of `names` that yields a result. */
  predicate FirstYield(obj: Json, names: seq<string>, p: Printer, i: int)
    requires obj.Object?
  {
    && 0 <= i < |names|
    && Yield(obj, names[i], p).Some?
    && forall j :: 0 <= j < i ==> Yield(obj, names[j], p).None?
  }

  /** The scan stops at the first candidate that yields and returns its text. */
  lemma {:induction false} ScanTakesFirstYield(obj: Json, names: seq<string>, p: Printer, i: int)
    requires obj.Object? && FirstYield(obj, names, p, i)
    ensures Scan(obj, names, p) == Yield(obj, names[i], p).value
    decreases i
  {
    if i > 0 {
      assert Yield(obj, names[0], p).None?;
      var rest := names[1..];
      forall j | 0 <= j < i - 1
        ensures Yield(obj, rest[j], p).None?
      {
        assert rest[j] == names[j + 1];
      }
      assert rest[i - 1] == names[i];
      ScanTakesFirstYield(obj, rest, p, i - 1);
    }
  }

  /** When no candidate yields, the scan ends in the fallback. */
  lemma {:induction false} ScanFallsBack(obj: Json, names: seq<string>, p: Printer)
    requires obj.Object?
    requires forall j :: 0 <= j < |names| ==> Yield(obj, names[j], p).None?
    ensures Scan(obj, names, p) == Fallback(obj, p)
    decreases |names|
  {
    if names != [] {
      assert Yield(obj, names[0], p).None?;
      var rest := names[1..];
      forall j | 0 <= j < |rest|
        ensures Yield(obj, rest[j], p).None?
      {
        assert rest[j] == names[j + 1];
      }
      ScanFallsBack(obj, rest, p);
    }
  }

  /** The whole result for an object: the text of the highest-priority candidate
      field that yields, or the fallback when none does. */
  lemma ObjectResult(obj: Json, p: Printer)
    requires obj.Object?
    ensures forall i :: FirstYield(obj, ErrorFields, p, i) ==>
              ExtractError(obj, p) == Yield(obj, ErrorFields[i], p).value
    ensures (forall i :: 0 <= i < |ErrorFields| ==> Yield(obj, ErrorFields[i], p).None?) ==>
              ExtractError(obj, p) == Fallback(obj, p)
  {
    forall i | FirstYield(obj, ErrorFields, p, i)
      ensures ExtractError(obj, p) == Yield(obj, ErrorFields[i], p).value
    {
      ScanTakesFirstYield(obj, ErrorFields, p, i);
    }
    if forall i :: 0 <= i < |ErrorFields| ==> Yield(obj, ErrorFields[i], p).None? {
      ScanFallsBack(obj, ErrorFields, p);
    }
  }

  /** Skipping candidates: once every candidate before `k` has been passed over,
      the scan continues exactly as if it had started at `k`. */
  lemma {:induction false} ScanSkipsPrefix(obj: Json, names: seq<string>, p: Printer, k: nat)
    requires obj.Object? && k <= |names|
    requires forall j :: 0 <= j < k ==> Yield(obj, names[j], p).None?
    ensures Scan(obj, names, p) == Scan(obj, names[k..], p)
    decreases k
  {
    if k > 0 {
      assert Yield(obj, names[0], p).None?;
      var rest := names[1..];
      forall j | 0 <= j < k - 1
        ensures Yield(obj, rest[j], p).None?
      {
        assert rest[j] == names[j + 1];
      }
      ScanSkipsPrefix(obj, rest, p, k - 1);
      assert rest[k - 1..] == names[k..];
    }
  }

  /** A candidate field holding a string is returned as soon as every
      higher-priority candidate has been passed over, with no emptiness check:
      an empty string is returned too. */
  lemma StringFieldWins(obj: Json, i: nat, s: string, p: Printer)
    requires obj.Object? && i < |ErrorFields|
    requires Get(obj, ErrorFields[i]) == Some(String(s))
    requires forall j :: 0 <= j < i ==> Yield(obj, ErrorFields[j], p).None?
    ensures ExtractError(obj, p) == s
  {
    assert FirstYield(obj, ErrorFields, p, i);
    ObjectResult(obj, p);
  }

  /** A candidate field holding an object is searched with the same algorithm;
      a non-empty nested result is returned, an empty one lets the scan go on
      to the next candidate name. */
  lemma NestedObjectField(obj: Json, i: nat, child: Json, p: Printer)
    requires obj.Object? && i < |ErrorFields|
    requires Get(obj, ErrorFields[i]) == Some(child) && child.Object?
    requires forall j :: 0 <= j < i ==> Yield(obj, ErrorFields[j], p).None?
    ensures ExtractError(child, p) != "" ==> ExtractError(obj, p) == ExtractError(child, p)
    ensures ExtractError(child, p) == "" ==>
              ExtractError(obj, p) == Scan(obj, ErrorFields[i + 1..], p)
  {
    if ExtractError(child, p) != "" {
      assert FirstYield(obj, ErrorFields, p, i);
      ObjectResult(obj, p);
    } else {
      ScanSkipsPrefix(obj, ErrorFields, p, i + 1);
    }
  }

  /** A candidate field that is missing, or holds a number, bool, null or array,
      is skipped: the scan goes on to the next candidate name. */
  lemma OtherFieldSkipped(obj: Json, i: nat, p: Printer)
    requires obj.Object? && i < |ErrorFields|
    requires Get(obj, ErrorFields[i]).Some? ==>
               !Get(obj, ErrorFields[i]).value.String? && !Get(obj, ErrorFields[i]).value.Object?
    requires forall j :: 0 <= j < i ==> Yield(obj, ErrorFields[j], p).None?
    ensures ExtractError(obj, p) == Scan(obj, ErrorFields[i + 1..], p)
  {
    ScanSkipsPrefix(obj, ErrorFields, p, i + 1);
  }

  /** Members whose keys are not candidate names never change the result, except
      through the printed fallback: two objects that agree on the ten candidate
      fields yield the same text, or both fall back to printing themselves. */
  lemma OnlyCandidateFieldsMatter(a: Json, b: Json, p: Printer)
    requires a.Object? && b.Object?
    requires forall i :: 0 <= i < |ErrorFields| ==> Get(a, ErrorFields[i]) == Get(b, ErrorFields[i])
    ensures ExtractError(a, p) == ExtractError(b, p)
            || (ExtractError(a, p) == Fallback(a, p) && ExtractError(b, p) == Fallback(b, p))
  {
    forall i | 0 <= i < |ErrorFields|
      ensures Yield(a, ErrorFields[i], p) == Yield(b, ErrorFields[i], p)
    {
      SameFieldSameYield(a, b, ErrorFields[i], p);
    }
    if m :| 0 <= m < |ErrorFields| && Yield(a, ErrorFields[m], p).Some? {
      var i := FirstIndex(a, ErrorFields, p, 0, m);
      assert FirstYield(b, ErrorFields, p, i);
      ScanTakesFirstYield(a, ErrorFields, p, i);
      ScanTakesFirstYield(b, ErrorFields, p, i);
    } else {
      ScanFallsBack(a, ErrorFields, p);
      ScanFallsBack(b, ErrorFields, p);
    }
  }

  /** What a candidate contributes depends only on the value stored under it. */
  lemma SameFieldSameYield(a: Json, b: Json, name: string, p: Printer)
    requires a.Object? && b.Object? && Get(a, name) == Get(b, name)
    ensures Yield(a, name, p) == Yield(b, name, p)
  {
  }

  /** An object none of whose keys is a candidate name is printed whole,
      whatever its members hold. */
  lemma NoCandidateFallsBack(obj: Json, p: Printer)
    requires obj.Object?
    requires forall k :: 0 <= k < |obj.members| ==> obj.members[k].0 !in ErrorFields
    ensures ExtractError(obj, p) == Fallback(obj, p)
  {
    forall j | 0 <= j < |ErrorFields|
      ensures Yield(obj, ErrorFields[j], p).None?
    {
      assert Get(obj, ErrorFields[j]).None?;
    }
    ScanFallsBack(obj, ErrorFields, p);
  }

  /** Below a yielding candidate `m`, starting from `k`, there is a first one. */
  lemma {:induction false} FirstIndex(obj: Json, names: seq<string>, p: Printer, k: nat, m: nat)
    returns (i: nat)
    requires obj.Object? && k <= m < |names|
    requires Yield(obj, names[m], p).Some?
    requires forall j :: 0 <= j < k ==> Yield(obj, names[j], p).None?
    ensures FirstYield(obj, names, p, i)
    decreases m - k
  {
    if Yield(obj, names[k], p).Some? {
      i := k;
    } else {
      assert k < m;
      i := FirstIndex(obj, names, p, k + 1, m);
    }
  }

  /* ---------------------------------------------------------------------- */
  /* The loop as written                                                     */
  /* ---------------------------------------------------------------------- */

  /** `SerdeValue`: a JSON value kept raw until an error message is asked for. */
  datatype SerdeValue = SerdeValue(json: Json)

  /** `From<Value> for SerdeValue`: wraps the value unchanged. */
  function FromValue(v: Json): (sv: SerdeValue)
    ensures sv.json == v
  {
    SerdeValue(v)
  }

  /** `Display for SerdeValue`: the compact serialisation of the wrapped value. */
  function Display(sv: SerdeValue, p: Printer): (r: string)
    ensures r == p.compact(sv.json)
    ensures !sv.json.String? && !sv.json.Object? ==> r == ExtractError(sv.json, p)
  {
    p.compact(sv.json)
  }

  /** For a number, bool, null or array the extracted message is exactly what
      `Display` prints; only strings and objects are treated specially. */
  lemma ExtractAgreesWithDisplayOnScalars(v: Json, p: Printer)
    requires !v.String? && !v.Object?
    ensures ExtractError(v, p) == Display(FromValue(v), p)
  {
  }

  /** `extract_error_from_json` with its `for` loop and early returns. */
  method ExtractErrorFromJson(sv: SerdeValue, p: Printer) returns (r: string)
    ensures r == ExtractError(sv.json, p)
    decreases sv.json
  {
    var v := sv.json;
    match v
    case Object(members) =>
      var k := 0;
      while k < |ErrorFields|
        invariant 0 <= k <= |ErrorFields|
        invariant forall j :: 0 <= j < k ==> Yield(v, ErrorFields[j], p).None?
      {
        var field := Get(v, ErrorFields[k]);
        if field.Some? {
          match field.value
          case String(s) =>
            assert FirstYield(v, ErrorFields, p, k);
            ObjectResult(v, p);
            return s;
          case Object(_) =>
            var nested := ExtractErrorFromJson(SerdeValue(field.value), p);
            if nested != "" {
              assert FirstYield(v, ErrorFields, p, k);
              ObjectResult(v, p);
              return nested;
            }
          case _ =>
        }
        k := k + 1;
      }
      ObjectResult(v, p);
      r := Fallback(v, p);
    case String(s) =>
      r := s;
    case _ =>
      r := p.compact(v);
  }

  /* ---------------------------------------------------------------------- */
  /* Worked examples                                                         */
  /* ---------------------------------------------------------------------- */

  /** `{"error": "disk full"}` gives `disk full`. */
  lemma ExampleTopLevelError(p: Printer)
    ensures ExtractError(Object([("error", String("disk full"))]), p) == "disk full"
  {
  }

  /** `{"error": {"message": "nested fail"}}` gives `nested fail`. */
  lemma ExampleNestedError(p: Printer)
    ensures ExtractError(Object([("error", Object([("message", String("nested fail"))]))]), p)
            == "nested fail"
  {
  }

  /** `{"title": "Not Found", "message": "resource missing"}` gives
      `resource missing`: `message` ranks above `title`. */
  lemma ExampleMessageBeforeTitle(p: Printer)
    ensures ExtractError(Object([("title", String("Not Found")), ("message", String("resource missing"))]), p)
            == "resource missing"
  {
  }

  /** `{"foo": "bar"}` has no candidate field and is printed whole. */
  lemma ExampleNoCandidate(p: Printer, v: Json)
    requires v == Object([("foo", String("bar"))])
    ensures ExtractError(v, p) == (if p.pretty(v).Some? then p.pretty(v).value else UnknownErrorFormat)
  {
    assert "foo" !in ErrorFields;
    NoCandidateFallsBack(v, p);
    assert ExtractError(v, p) == Fallback(v, p);
  }

  /** `{"error": {"code": 7}, "message": ""}`: the nested object has no
      candidate field, so it yields its own printed form; whenever that is
      non-empty it is returned rather than the later empty `message`. */
  lemma ExampleNestedFallbackWins(p: Printer, t: string)
    requires p.pretty(Object([("code", Number("7"))])) == Some(t) && t != ""
    ensures ExtractError(Object([("error", Object([("code", Number("7"))])), ("message", String(""))]), p) == t
  {
    var child := Object([("code", Number("7"))]);
    assert "code" !in ErrorFields;
    NoCandidateFallsBack(child, p);
    var v := Object([("error", child), ("message", String(""))]);
    assert Get(v, "error") == Some(child);
    assert FirstYield(v, ErrorFields, p, 0);
    ObjectResult(v, p);
  }
}
