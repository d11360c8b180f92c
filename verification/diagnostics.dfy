/**
 * The diagnostic collector of one derive run (`crate::ctxt::Ctxt`).
 * Its implementation is not part of this model; what the derive relies on is
 * that messages are only ever appended, in the order they are reported, and
 * that `check` fails exactly when something was reported.
 */
module Diagnostics {
  import opened Wrappers

  /** The messages recorded so far, oldest first. */
  type Ctxt = seq<string>

  /** `Ctxt::error_spanned_by`: record one message (the span is not modelled). */
  function Error(ctxt: Ctxt, msg: string): (r: Ctxt)
    ensures ctxt <= r && |r| == |ctxt| + 1 && r[|ctxt|] == msg
  {
    ctxt + [msg]
  }

  /** `Ctxt::check`: every recorded message, or success when there is none. */
  function Check(ctxt: Ctxt): (r: Result<(), seq<string>>)
    ensures r.Success? <==> |ctxt| == 0
    ensures r.Failure? ==> r.error == ctxt
  {
    if |ctxt| == 0 then Success(()) else Failure(ctxt)
  }
}
