/**
 * The one-shot load of the country list in src/App.tsx: the `hasFetchedRef` guard that keeps a
 * repeated mount from starting a second request, and `handleRetry`, which clears the guard and
 * fetches again. The request itself is not modelled: each load is split into the synchronous
 * part that starts it and the continuation that runs when the request settles with an outcome.
 */
module CountryLoader {
  import opened CountryTypes

  /**
   * What a rejected `fetchAllCountries()` threw: an `Error` with its message; some other value,
   * with its `message` property when it has one that is a string; or `null` / `undefined`.
   */
  datatype Thrown = ErrorObject(message: string) | OtherValue(messageProperty: Option<string>) | Nullish

  /** How the request settled. */
  datatype FetchOutcome = Fetched(data: seq<Country>) | Rejected(reason: Thrown)

  const UnexpectedError: string := "An unexpected error occurred"

  /** The message the mount-time load shows: an `Error`'s message, or a fixed fallback for anything else. */
  function MountMessage(t: Thrown): string
  {
    match t
    case ErrorObject(msg) => msg
    case OtherValue(_) => UnexpectedError
    case Nullish => UnexpectedError
  }

  /**
   * The error the retry leaves: `err.message`, whether or not `err` is an `Error`. A value without
   * a `message` gives `undefined`, which shows no error. Reading `message` of `null` or
   * `undefined` throws inside the handler, so the error stays as the retry cleared it.
   */
  function RetryMessage(t: Thrown): (r: Option<string>)
    ensures t.ErrorObject? ==> r == Some(MountMessage(t))
    ensures t.Nullish? ==> r == None
    ensures t.OtherValue? ==> r == t.messageProperty
  {
    match t
    case ErrorObject(msg) => Some(msg)
    case OtherValue(msg) => msg
    case Nullish => None
  }

  class Loader {
    var hasFetched: bool
    var loading: bool
    var error: Option<string>
    var countries: seq<Country>

    /** The initial state of App: no countries, loading, no error, the guard clear. */
    constructor ()
      ensures !hasFetched && loading && error == None && countries == []
    {
      hasFetched := false;
      loading := true;
      error := None;
      countries := [];
    }

    /** The mount effect: returns whether it started a load. */
    method Mount() returns (started: bool)
      modifies this
      ensures started == !old(hasFetched)
      ensures hasFetched
      ensures started ==> loading && error == None
      ensures !started ==> loading == old(loading) && error == old(error)
      ensures countries == old(countries)
    {
      if hasFetched {
        return false;
      }
      hasFetched := true;
      started := true;
      loading := true;
      error := None;
    }

    /** The continuation of the mount-time load once the request settles. */
    method SettleMount(outcome: FetchOutcome)
      modifies this
      ensures !loading
      ensures hasFetched == old(hasFetched)
      ensures outcome.Fetched? ==> countries == outcome.data && error == old(error)
      ensures outcome.Rejected? ==> countries == old(countries) && error == Some(MountMessage(outcome.reason))
    {
      match outcome {
        case Fetched(data) =>
          countries := data;
        case Rejected(reason) =>
          error := Some(MountMessage(reason));
      }
      loading := false;
    }

    /** `handleRetry` up to the request: clear the guard, show loading, drop the error. */
    method Retry()
      modifies this
      ensures !hasFetched && loading && error == None
      ensures countries == old(countries)
    {
      hasFetched := false;
      loading := true;
      error := None;
    }

    /** The `.then` / `.catch` / `.finally` of the retry once the request settles. */
    method SettleRetry(outcome: FetchOutcome)
      modifies this
      ensures !loading
      ensures hasFetched == old(hasFetched)
      ensures outcome.Fetched? ==> countries == outcome.data && error == old(error)
      ensures outcome.Rejected? ==> countries == old(countries) && error == RetryMessage(outcome.reason)
    {
      match outcome {
        case Fetched(data) =>
          countries := data;
        case Rejected(reason) =>
          error := RetryMessage(reason);
      }
      loading := false;
    }
  }

  /**
   * A double mount starts one load; a failed load shows its message; a retry that succeeds shows
   * the list.
   */
  method StartupScenario(data: seq<Country>, message: string)
    returns (loads: nat, failure: Option<string>, shown: seq<Country>, error: Option<string>, loading: bool)
    ensures loads == 1 && failure == Some(message)
    ensures shown == data && error == None && !loading
  {
    var app := new Loader();
    var first := app.Mount();
    var second := app.Mount();
    loads := (if first then 1 else 0) + (if second then 1 else 0);
    assert app.loading;
    app.SettleMount(Rejected(ErrorObject(message)));
    assert !app.loading && app.countries == [];
    failure := app.error;
    app.Retry();
    assert app.loading && app.error == None;
    app.SettleRetry(Fetched(data));
    shown, error, loading := app.countries, app.error, app.loading;
  }
}
