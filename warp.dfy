/**
 * A warp `Rejection` as the recovery handlers see it: the causes it carries.
 * A rejection with no cause is warp's "not found".
 */
module Warp {
  import opened Wrappers
  import opened Rejections
  import opened AppRejections

  datatype Cause =
    | App(rejection: AppRejection)    // a custom `AppRejection`
    | Legacy(error: Error)             // a custom `rejections::Error`
    | MethodNotAllowed                 // warp's `reject::MethodNotAllowed`
    | Other                            // any other built-in rejection

  datatype Rejection = Rejection(causes: seq<Cause>)

  /** `Rejection::is_not_found`. */
  predicate IsNotFound(rej: Rejection)
  {
    rej.causes == []
  }

  /** `rej.find::<AppRejection>()`: the first `AppRejection` among the causes. */
  function FindAppRejection(causes: seq<Cause>): (r: Option<AppRejection>)
    ensures r.None? <==> forall i :: 0 <= i < |causes| ==> !causes[i].App?
    ensures r.Some? ==> App(r.value) in causes
  {
    if causes == [] then None
    else if causes[0].App? then Some(causes[0].rejection)
    else FindAppRejection(causes[1..])
  }

  /** `rej.find::<rejections::Error>()`: the first `Error` among the causes. */
  function FindError(causes: seq<Cause>): (r: Option<Error>)
    ensures r.None? <==> forall i :: 0 <= i < |causes| ==> !causes[i].Legacy?
    ensures r.Some? ==> Legacy(r.value) in causes
  {
    if causes == [] then None
    else if causes[0].Legacy? then Some(causes[0].error)
    else FindError(causes[1..])
  }

  /** `rej.find::<MethodNotAllowed>().is_some()`. */
  predicate HasMethodNotAllowed(rej: Rejection)
  {
    MethodNotAllowed in rej.causes
  }

  /** `find` returns the first error among the causes, before which there is none. */
  lemma {:induction false} FindErrorFirst(causes: seq<Cause>)
    ensures FindError(causes).Some? ==>
              exists i :: 0 <= i < |causes| && causes[i] == Legacy(FindError(causes).value)
                          && forall j :: 0 <= j < i ==> !causes[j].Legacy?
    ensures forall i :: 0 <= i < |causes| && causes[i].Legacy? && (forall j :: 0 <= j < i ==> !causes[j].Legacy?)
                        ==> FindError(causes) == Some(causes[i].error)
  {
    if causes != [] && !causes[0].Legacy? {
      FindErrorFirst(causes[1..]);
      if FindError(causes).Some? {
        var i :| 0 <= i < |causes[1..]| && causes[1..][i] == Legacy(FindError(causes).value)
                 && forall j :: 0 <= j < i ==> !causes[1..][j].Legacy?;
        assert causes[i + 1] == Legacy(FindError(causes).value);
      }
      forall i | 0 <= i < |causes| && causes[i].Legacy? && (forall j :: 0 <= j < i ==> !causes[j].Legacy?)
        ensures FindError(causes) == Some(causes[i].error)
      {
        assert causes[1..][i - 1] == causes[i];
      }
    }
  }

  /** `find` returns the first `AppRejection` among the causes, before which there is none. */
  lemma {:induction false} FindAppRejectionFirst(causes: seq<Cause>)
    ensures FindAppRejection(causes).Some? ==>
              exists i :: 0 <= i < |causes| && causes[i] == App(FindAppRejection(causes).value)
                          && forall j :: 0 <= j < i ==> !causes[j].App?
    ensures forall i :: 0 <= i < |causes| && causes[i].App? && (forall j :: 0 <= j < i ==> !causes[j].App?)
                        ==> FindAppRejection(causes) == Some(causes[i].rejection)
  {
    if causes != [] && !causes[0].App? {
      FindAppRejectionFirst(causes[1..]);
      if FindAppRejection(causes).Some? {
        var i :| 0 <= i < |causes[1..]| && causes[1..][i] == App(FindAppRejection(causes).value)
                 && forall j :: 0 <= j < i ==> !causes[1..][j].App?;
        assert causes[i + 1] == App(FindAppRejection(causes).value);
      }
      forall i | 0 <= i < |causes| && causes[i].App? && (forall j :: 0 <= j < i ==> !causes[j].App?)
        ensures FindAppRejection(causes) == Some(causes[i].rejection)
      {
        assert causes[1..][i - 1] == causes[i];
      }
    }
  }
}
