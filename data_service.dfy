/**
 * The data service in local (demo) mode (services/dataService.ts): browser
 * storage holds the result list under one key and the demo login flag under
 * another. Every write reads the current list, builds a new one and stores it
 * back. The two storage keys are the two fields of LocalStore; a missing key
 * is None.
 */
module DataService {
  import opened Wrappers
  import opened Types
  import opened JsArray
  import JsString

  const DEMO_EMAIL: string := "admin@college.com"
  const DEMO_PASSWORD: string := "admin123"
  /** The value stored under the login key while signed in. */
  const AUTH_FLAG: string := "true"

  /** The user object the auth subscription reports (`{ email }`). */
  datatype User = User(email: string)

  /** The list after `[newResult, ...current]`: the new record in front. */
  function Prepended(current: seq<Result>, result: NewResult, id: string): seq<Result> {
    [WithId(result, id)] + current
  }

  /** The predicate `r => r.id !== id`. */
  function IdDiffers(id: string): Result -> bool {
    (r: Result) => r.id != id
  }

  /** The list after `current.filter(r => r.id !== id)`. */
  function WithoutId(current: seq<Result>, id: string): seq<Result> {
    Filter(current, IdDiffers(id))
  }

  /** Adding puts exactly one record in front, with the given fields and id. */
  lemma PrependedShape(current: seq<Result>, result: NewResult, id: string)
    ensures |Prepended(current, result, id)| == |current| + 1
    ensures Prepended(current, result, id)[0] == WithId(result, id)
    ensures Prepended(current, result, id)[1..] == current
  {
  }

  /** Deleting keeps exactly the entries with another id, in their order. */
  lemma WithoutIdCharacterised(current: seq<Result>, id: string)
    ensures forall r :: r in WithoutId(current, id) <==> r in current && r.id != id
    ensures IsSubsequence(WithoutId(current, id), current)
    ensures forall i :: 0 <= i < |WithoutId(current, id)| ==> WithoutId(current, id)[i].id != id
  {
    FilterIsSubsequence(current, IdDiffers(id));
    forall i | 0 <= i < |WithoutId(current, id)| ensures WithoutId(current, id)[i].id != id {
      assert WithoutId(current, id)[i] in WithoutId(current, id);
    }
  }

  /** Deleting an id no entry has changes nothing. */
  lemma WithoutAbsentId(current: seq<Result>, id: string)
    requires forall r :: r in current ==> r.id != id
    ensures WithoutId(current, id) == current
  {
    FilterKeepsAll(current, IdDiffers(id));
  }

  /** Deleting the same id twice is deleting it once. */
  lemma WithoutIdIdempotent(current: seq<Result>, id: string)
    ensures WithoutId(WithoutId(current, id), id) == WithoutId(current, id)
  {
    FilterIdempotent(current, IdDiffers(id));
  }

  /** How `loginAdmin` settles: resolves true, resolves false, or rejects because the write threw. */
  datatype LoginOutcome = SignedIn | Refused | WriteFailed

  /** Only the demo pair signs in. */
  predicate DemoCredentials(email: string, password: string) {
    email == DEMO_EMAIL && password == DEMO_PASSWORD
  }

  class LocalStore {
    /** The stored value under "sportiva_results_v1", if any. */
    var resultsItem: Option<seq<Result>>
    /** The stored value under "demo_auth", if any. */
    var authItem: Option<string>

    constructor (results: Option<seq<Result>>, auth: Option<string>)
      ensures resultsItem == results && authItem == auth
    {
      resultsItem := results;
      authItem := auth;
    }

    /** `getLocalResults`: the stored list, or the empty list when nothing is stored. */
    function LocalResults(): (rs: seq<Result>)
      reads this
      ensures resultsItem.None? ==> rs == []
      ensures resultsItem.Some? ==> rs == resultsItem.value
    {
      if resultsItem.Some? then resultsItem.value else []
    }

    /** The `checkAuth` test: the demo admin while the flag reads "true", no one otherwise. */
    function CurrentUser(): (u: Option<User>)
      reads this
      ensures u.Some? <==> authItem == Some(AUTH_FLAG)
      ensures u.Some? ==> u.value.email == DEMO_EMAIL
    {
      if authItem == Some(AUTH_FLAG) then Some(User(DEMO_EMAIL)) else None
    }

    /**
     * `addResult`: stores `[newResult, ...current]`, where the record's id is
     * the decimal text of the clock reading `now`. `accepted` is whether
     * storage takes the write; when it throws (a full quota) nothing is stored
     * and the failure reaches the caller.
     */
    method AddResult(result: NewResult, now: nat, accepted: bool) returns (ok: bool)
      modifies this
      ensures ok == accepted
      ensures ok ==> resultsItem == Some(Prepended(old(LocalResults()), result, JsString.DecimalString(now)))
      ensures !ok ==> resultsItem == old(resultsItem)
      ensures authItem == old(authItem)
    {
      var current := LocalResults();
      var updated := [WithId(result, JsString.DecimalString(now))] + current;
      ok := accepted;
      if ok {
        resultsItem := Some(updated);
      }
    }

    /**
     * `deleteResult`: stores the current list without the entries carrying
     * `id`. `accepted` is whether storage takes the write; when it throws,
     * nothing is stored and the failure reaches the caller.
     */
    method DeleteResult(id: string, accepted: bool) returns (ok: bool)
      modifies this
      ensures ok == accepted
      ensures ok ==> resultsItem == Some(WithoutId(old(LocalResults()), id))
      ensures !ok ==> resultsItem == old(resultsItem)
      ensures authItem == old(authItem)
    {
      var current := LocalResults();
      var updated := Filter(current, IdDiffers(id));
      ok := accepted;
      if ok {
        resultsItem := Some(updated);
      }
    }

    /**
     * `loginAdmin` in demo mode: only the demo pair writes the flag; any other
     * pair resolves false and changes nothing. `accepted` is whether storage
     * takes the write; when it throws, the call rejects instead of resolving.
     */
    method LoginAdmin(email: string, password: string, accepted: bool) returns (outcome: LoginOutcome)
      modifies this
      ensures outcome == Refused <==> !DemoCredentials(email, password)
      ensures outcome == SignedIn <==> DemoCredentials(email, password) && accepted
      ensures outcome == SignedIn ==> authItem == Some(AUTH_FLAG) && CurrentUser() == Some(User(DEMO_EMAIL))
      ensures outcome != SignedIn ==> authItem == old(authItem)
      ensures resultsItem == old(resultsItem)
    {
      if email == DEMO_EMAIL && password == DEMO_PASSWORD {
        if !accepted {
          return WriteFailed;
        }
        authItem := Some(AUTH_FLAG);
        return SignedIn;
      }
      return Refused;
    }

    /** `logoutAdmin` in demo mode: the flag is removed, so no one is signed in. */
    method LogoutAdmin()
      modifies this
      ensures authItem == None && CurrentUser() == None
      ensures resultsItem == old(resultsItem)
    {
      authItem := None;
    }
  }

  /** What a subscriber sees after an add followed by a delete of the new id, when no old entry had it. */
  lemma AddThenDeleteRestores(current: seq<Result>, result: NewResult, id: string)
    requires forall r :: r in current ==> r.id != id
    ensures WithoutId(Prepended(current, result, id), id) == current
  {
    var added := Prepended(current, result, id);
    assert added == [added[0]] + current;
    assert !IdDiffers(id)(added[0]);
    assert WithoutId(added, id) == WithoutId(current, id);
    WithoutAbsentId(current, id);
  }

}
