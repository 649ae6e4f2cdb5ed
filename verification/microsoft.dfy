/** src/microsoft.rs: the Graph envelope conversion as that file writes it, and
    the recursive Azure Document Intelligence error records with their display
    texts and `source()` chains. */
module Microsoft {
  import opened Wrappers
  import opened JsonValue
  import opened Envelope
  import opened Pile

  /* ---------------------------------------------------------------------- */
  /* Envelope conversion                                                     */
  /* ---------------------------------------------------------------------- */

  /** `From<MSResponse<T>> for PileResult<T>` as src/microsoft.rs writes it: the
      error wins, else the value, else a `Custom` error. */
  function FromMSResponse<T>(resp: MSResponse<T>, debug: MSResponse<T> -> string): (r: PileResult<T>)
    ensures r.Ok? <==> resp.error.None? && resp.value.Some?
    ensures r.Ok? ==> r.value == resp.value.value
    ensures resp.error.Some? ==> r == Err(MS(resp.error.value))
    ensures resp.error.None? && resp.value.None? ==>
              r.Err? && r.error.Custom? && UnparsedPrefix <= r.error.msg
  {
    if resp.error.Some? then Err(MS(resp.error.value))
    else if resp.value.Some? then Ok(resp.value.value)
    else Err(Custom(UnparsedPrefix + debug(resp)))
  }

  /** Relabels the `Response` variant of src/lib.rs as the `MS` variant. */
  function ResponseAsMS(e: ErrPile): ErrPile {
    if e.Response? then MS(e.response) else e
  }

  /** The two files' conversions make the same decision and differ only in the
      variant that carries the envelope's error. */
  lemma ConversionsAgree<T>(resp: MSResponse<T>, debug: MSResponse<T> -> string)
    ensures FromMSResponse(resp, debug) == Pile.FromMSResponse(resp, debug).MapErr(ResponseAsMS)
  {
  }

  /* ---------------------------------------------------------------------- */
  /* Azure errors                                                            */
  /* ---------------------------------------------------------------------- */

  /** `AZError`: `{ "error": { ... } }`. */
  datatype AZError = AZError(error: AZErrorDetails)

  /** `AZErrorDetails`: code and message, with optional nested `details` errors
      and an optional `innererror` chain. */
  datatype AZErrorDetails = AZErrorDetails(
    code: string,
    message: string,
    target: Option<string>,
    details: Option<seq<AZError>>,
    innererror: Option<AZErrorInner>)

  /** `AZErrorInner`: each link of the `innererror` chain, every part optional. */
  datatype AZErrorInner = AZErrorInner(
    code: Option<string>,
    message: Option<string>,
    innererror: Option<AZErrorInner>)

  const Separator: string := " - "

  /** The shared `"{} - {}"` format. */
  function Dashed(left: string, right: string): string {
    left + Separator + right
  }

  /** `Display for AZErrorDetails`. */
  function DetailsDisplay(d: AZErrorDetails): (r: string)
    ensures r == d.code + Separator + d.message
    ensures r[..|d.code|] == d.code && r[|d.code| + |Separator|..] == d.message
  {
    Dashed(d.code, d.message)
  }

  /** `Display for AZError`: the text its details print. */
  function AZErrorDisplay(e: AZError): (r: string)
    ensures r == e.error.code + Separator + e.error.message
  {
    DetailsDisplay(e.error)
  }

  /** An `AZError`'s code and message can be read back from its display when
      the code has no hyphen. */
  lemma AZErrorDisplayRoundTrip(e: AZError)
    requires forall k :: 0 <= k < |e.error.code| ==> e.error.code[k] != '-'
    ensures SplitDashed(AZErrorDisplay(e)) == Some((e.error.code, e.error.message))
  {
    DashedRoundTrip(e.error.code, e.error.message);
  }

  /** `Display for AZErrorInner`: a missing code or message shows as empty. */
  function InnerDisplay(i: AZErrorInner): (r: string)
    ensures r == i.code.GetOr("") + Separator + i.message.GetOr("")
    ensures i.code.None? ==> r[..|Separator|] == Separator
    ensures i.message.None? ==> r[|r| - |Separator|..] == Separator
  {
    Dashed(i.code.GetOr(""), i.message.GetOr(""))
  }

  /** An inner error prints exactly as details with the same code and message
      would, missing parts replaced by empty strings. */
  lemma InnerDisplayAsDetails(i: AZErrorInner)
    ensures InnerDisplay(i)
            == DetailsDisplay(AZErrorDetails(i.code.GetOr(""), i.message.GetOr(""), None, None, i.innererror))
  {
  }

  /** A missing code or message prints the same as an empty one. */
  lemma MissingPartsPrintEmpty(m: Option<string>, c: Option<string>, next: Option<AZErrorInner>)
    ensures InnerDisplay(AZErrorInner(None, m, next)) == InnerDisplay(AZErrorInner(Some(""), m, next))
    ensures InnerDisplay(AZErrorInner(c, None, next)) == InnerDisplay(AZErrorInner(c, Some(""), next))
  {
  }

  /** A `" - "` starts at position `j` of `s`. */
  predicate SeparatorStartsAt(s: string, j: int) {
    0 <= j && j + |Separator| <= |s| && s[j..j + |Separator|] == Separator
  }

  /** Dropping the first character moves every occurrence one place left. */
  lemma SeparatorShift(s: string)
    requires |s| > 0
    ensures forall j :: 1 <= j ==> (SeparatorStartsAt(s, j) <==> SeparatorStartsAt(s[1..], j - 1))
  {
    forall j | 1 <= j
      ensures SeparatorStartsAt(s, j) <==> SeparatorStartsAt(s[1..], j - 1)
    {
      if j + |Separator| <= |s| {
        assert s[1..][j - 1..j - 1 + |Separator|] == s[j..j + |Separator|];
      }
    }
  }

  /** Position of the first `" - "` in `s`. */
  function SeparatorAt(s: string): (r: Option<nat>)
    ensures r.Some? ==> SeparatorStartsAt(s, r.value)
    ensures r.Some? ==> forall j :: 0 <= j < r.value ==> !SeparatorStartsAt(s, j)
    ensures r.None? ==> forall j :: !SeparatorStartsAt(s, j)
    decreases |s|
  {
    if |s| < |Separator| then None
    else if s[..|Separator|] == Separator then Some(0)
    else
      SeparatorShift(s);
      match SeparatorAt(s[1..])
      case None => None
      case Some(k) => Some(k + 1)
  }

  /** Reads a `"{} - {}"` text back into its two halves, split at the first
      separator. */
  function SplitDashed(s: string): Option<(string, string)> {
    match SeparatorAt(s)
    case None => None
    case Some(k) => Some((s[..k], s[k + |Separator|..]))
  }

  /** The display format loses nothing when the left part has no hyphen: the
      two parts can be read back from the text. */
  lemma DashedRoundTrip(left: string, right: string)
    requires forall k :: 0 <= k < |left| ==> left[k] != '-'
    ensures SplitDashed(Dashed(left, right)) == Some((left, right))
  {
    var s := Dashed(left, right);
    var n := |left|;
    assert SeparatorStartsAt(s, n);
    forall j | 0 <= j < n
      ensures !SeparatorStartsAt(s, j)
    {
      assert s[j..j + |Separator|][1] == s[j + 1];
      if j + 1 < n {
        assert s[j + 1] == left[j + 1];
      } else {
        assert s[j + 1] == ' ';
      }
    }
    assert s[..n] == left;
    assert s[n + |Separator|..] == right;
  }

  /** Details display round-trip: code and message come back from the text
      when the code has no hyphen. */
  lemma DetailsDisplayRoundTrip(d: AZErrorDetails)
    requires forall k :: 0 <= k < |d.code| ==> d.code[k] != '-'
    ensures SplitDashed(DetailsDisplay(d)) == Some((d.code, d.message))
  {
    DashedRoundTrip(d.code, d.message);
  }

  /** Inner display round-trip: the parts come back, a missing one as empty. */
  lemma InnerDisplayRoundTrip(i: AZErrorInner)
    requires forall k :: 0 <= k < |i.code.GetOr("")| ==> i.code.GetOr("")[k] != '-'
    ensures SplitDashed(InnerDisplay(i)) == Some((i.code.GetOr(""), i.message.GetOr("")))
  {
    DashedRoundTrip(i.code.GetOr(""), i.message.GetOr(""));
  }

  /* ---------------------------------------------------------------------- */
  /* The source() chain                                                      */
  /* ---------------------------------------------------------------------- */

  /** The `&dyn Error` a `source()` call returns below an `AZError`. */
  datatype Cause = DetailsCause(details: AZErrorDetails) | InnerCause(inner: AZErrorInner)

  /** `Error::source for AZError`: always its details. */
  function AZErrorSource(e: AZError): (r: Option<Cause>)
    ensures r.Some? && r.value.DetailsCause? && r.value.details == e.error
  {
    Some(DetailsCause(e.error))
  }

  /** `Error::source for AZErrorDetails`: the `innererror`, if any; never one of
      the `details`. */
  function DetailsSource(d: AZErrorDetails): (r: Option<Cause>)
    ensures r.Some? <==> d.innererror.Some?
    ensures r.Some? ==> r.value == InnerCause(d.innererror.value)
  {
    match d.innererror
    case None => None
    case Some(i) => Some(InnerCause(i))
  }

  /** `Error::source for AZErrorInner`: the boxed next link, if any. */
  function InnerSource(i: AZErrorInner): (r: Option<Cause>)
    ensures r.Some? <==> i.innererror.Some?
    ensures r.Some? ==> r.value == InnerCause(i.innererror.value)
  {
    match i.innererror
    case None => None
    case Some(n) => Some(InnerCause(n))
  }

  /** `source()` on whichever record a cause is: never a details record, and
      always one step further down the `innererror` chain. */
  function CauseSource(c: Cause): (r: Option<Cause>)
    ensures r.Some? ==> r.value.InnerCause? && Height(r.value) == Height(c) - 1
  {
    match c
    case DetailsCause(d) => DetailsSource(d)
    case InnerCause(i) => InnerSource(i)
  }

  /** The `innererror` links of a chain, first to last: each link's
      `innererror` is the next one and the last link has none. */
  function InnerChain(o: Option<AZErrorInner>): (r: seq<AZErrorInner>)
    ensures o.None? <==> r == []
    ensures o.Some? ==> r[0] == o.value && r[|r| - 1].innererror.None?
    ensures forall k :: 0 <= k < |r| - 1 ==> r[k].innererror == Some(r[k + 1])
  {
    match o
    case None => []
    case Some(i) => [i] + InnerChain(i.innererror)
  }

  /** A measure that every `source()` step lowers: the number of causes still
      to come, the record itself included. */
  function Height(c: Cause): nat {
    match c
    case DetailsCause(d) => 1 + |InnerChain(d.innererror)|
    case InnerCause(i) => |InnerChain(Some(i))|
  }

  /** The causes met by calling `source()` repeatedly from `c` until it returns
      `None` (`c` itself excluded). Termination is the finiteness of the walk. */
  function Causes(c: Cause): (r: seq<Cause>)
    ensures |r| == Height(c) - 1
    ensures forall k :: 0 <= k < |r| ==> r[k].InnerCause?
    decreases Height(c)
  {
    match CauseSource(c)
    case None => []
    case Some(n) => [n] + Causes(n)
  }

  /** The whole walk from an `AZError`: its details, then the causes below. */
  function Walk(e: AZError): (r: seq<Cause>)
    ensures |r| == Height(DetailsCause(e.error)) && r[0] == DetailsCause(e.error)
  {
    match AZErrorSource(e)
    case None => []
    case Some(c) => [c] + Causes(c)
  }

  /** Below an `innererror` link the walk visits exactly the rest of the chain. */
  lemma {:induction false} CausesFollowInnerChain(o: Option<AZErrorInner>, c: Cause)
    requires (c.DetailsCause? && c.details.innererror == o) || (c.InnerCause? && c.inner.innererror == o)
    ensures |Causes(c)| == |InnerChain(o)|
    ensures forall k :: 0 <= k < |Causes(c)| ==> Causes(c)[k] == InnerCause(InnerChain(o)[k])
    decreases o
  {
    match o
    case None =>
    case Some(i) =>
      CausesFollowInnerChain(i.innererror, InnerCause(i));
  }

  /** Walking `source()` from an `AZError` is finite: it visits the details,
      then exactly the `innererror` chain, and never enters the `details`
      list. */
  lemma WalkFollowsInnerErrors(e: AZError)
    ensures |Walk(e)| == 1 + |InnerChain(e.error.innererror)|
    ensures Walk(e)[0] == DetailsCause(e.error)
    ensures forall k :: 1 <= k < |Walk(e)| ==> Walk(e)[k] == InnerCause(InnerChain(e.error.innererror)[k - 1])
    ensures forall k :: 0 <= k < |Walk(e)| && Walk(e)[k].DetailsCause? ==> k == 0
  {
    CausesFollowInnerChain(e.error.innererror, DetailsCause(e.error));
  }

  /** The `details` list plays no part in the walk: replacing it changes only
      the first cause (the details record itself), never what follows. */
  lemma WalkIgnoresDetails(e: AZError, ds: Option<seq<AZError>>)
    ensures |Walk(AZError(e.error.(details := ds)))| == |Walk(e)|
    ensures Walk(AZError(e.error.(details := ds)))[1..] == Walk(e)[1..]
  {
    var e' := AZError(e.error.(details := ds));
    WalkFollowsInnerErrors(e);
    WalkFollowsInnerErrors(e');
  }
}
