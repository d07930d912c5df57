/**
 * The browser's session and free-scan gate: three storage slots (the user,
 * the token and the scan count), read by getters and overwritten by
 * `setUser`, `logout` and `incrementScan`. Logged-out visitors get three
 * free scans; logging in or out resets the count.
 */
module ScanGate {
  import opened Wrappers
  import opened Js

  /** Scans a logged-out visitor may make. */
  const FreeScans: nat := 3

  /** The three storage slots; `None` is a slot that holds nothing. The user
      slot holds the user value as stored (its JSON text is not modelled);
      the token slot holds the string `setItem` stored; the count slot holds
      the number whose decimal text is stored. */
  datatype Slots = Slots(user: Option<JsValue>, token: Option<string>, scanCount: Option<nat>)

  /** `isLoggedIn`: a token is stored, whatever it is. */
  predicate LoggedIn(s: Slots) {
    s.token.Some?
  }

  /** `scanCount`: the stored count, 0 when unset. */
  function Count(s: Slots): nat {
    if s.scanCount.Some? then s.scanCount.value else 0
  }

  /** `canScan`. */
  predicate CanScan(s: Slots) {
    LoggedIn(s) || Count(s) < FreeScans
  }

  /** `remainingScans`: -1 for unlimited, else the free scans left. */
  function Remaining(s: Slots): int {
    if LoggedIn(s) then -1
    else if Count(s) >= FreeScans then 0
    else FreeScans - Count(s)
  }

  /** `String(token)` as `setItem` stores it: an undefined token (`None`)
      becomes the text "undefined". */
  function StoredToken(token: Option<string>): string {
    if token.Some? then token.value else "undefined"
  }

  /** `setUser(user, token)`. */
  function AfterSetUser(s: Slots, user: JsValue, token: Option<string>): Slots {
    Slots(Some(user), Some(StoredToken(token)), Some(0))
  }

  /** `logout()`; the redirect is not modelled. */
  function AfterLogout(s: Slots): Slots {
    Slots(None, None, Some(0))
  }

  /** `incrementScan()`. */
  function AfterIncrement(s: Slots): Slots {
    s.(scanCount := Some(Count(s) + 1))
  }

  /** `getAuthHeaders()`. */
  function AuthHeaders(s: Slots): map<string, string> {
    var headers := map["Content-Type" := "application/json"];
    if s.token.Some? && s.token.value != "" then headers["Authorization" := "Bearer " + s.token.value]
    else headers
  }

  /** The gate and the counter agree: logged in, scanning is always allowed
      and the remaining count reads -1; logged out, scanning is allowed
      exactly when scans remain, and never more than three remain. */
  lemma GateConsistent(s: Slots)
    ensures LoggedIn(s) ==> CanScan(s) && Remaining(s) == -1
    ensures !LoggedIn(s) ==> (CanScan(s) <==> Remaining(s) > 0)
    ensures !LoggedIn(s) ==> 0 <= Remaining(s) <= FreeScans
    ensures !LoggedIn(s) ==> Remaining(s) == if Count(s) >= FreeScans then 0 else FreeScans - Count(s)
  {
  }

  /** After `setUser` the visitor is logged in with a fresh count, whatever
      came before; doing it twice is doing it once. */
  lemma SetUserResets(s: Slots, user: JsValue, token: Option<string>)
    ensures var t := AfterSetUser(s, user, token);
      LoggedIn(t) && Count(t) == 0 && CanScan(t) && t.user == Some(user)
    ensures AfterSetUser(AfterSetUser(s, user, token), user, token) == AfterSetUser(s, user, token)
  {
  }

  /** After `logout` the visitor is logged out with all three free scans,
      whatever came before; logging out twice is logging out once. */
  lemma LogoutResets(s: Slots)
    ensures var t := AfterLogout(s);
      !LoggedIn(t) && Count(t) == 0 && CanScan(t) && Remaining(t) == FreeScans && t.user.None?
    ensures AfterLogout(AfterLogout(s)) == AfterLogout(s)
  {
  }

  /** `incrementScan` raises the count by exactly one and touches neither the
      user nor the token. */
  lemma IncrementRaisesByOne(s: Slots)
    ensures Count(AfterIncrement(s)) == Count(s) + 1
    ensures AfterIncrement(s).user == s.user && AfterIncrement(s).token == s.token
    ensures !LoggedIn(s) && Count(s) < FreeScans ==> Remaining(AfterIncrement(s)) == Remaining(s) - 1
  {
  }

  /** The headers always carry the content type, and carry an Authorization
      of "Bearer <token>" exactly when a non-empty token is stored. */
  lemma HeadersCarryToken(s: Slots)
    ensures "Content-Type" in AuthHeaders(s) && AuthHeaders(s)["Content-Type"] == "application/json"
    ensures "Authorization" in AuthHeaders(s) <==> s.token.Some? && s.token.value != ""
    ensures "Authorization" in AuthHeaders(s) ==> AuthHeaders(s)["Authorization"] == "Bearer " + s.token.value
  {
  }

  /** A login whose response carries no token still counts as logged in: the
      slot holds the text "undefined", and requests go out with
      "Bearer undefined". */
  lemma MissingTokenStillLogsIn(s: Slots, user: JsValue)
    ensures LoggedIn(AfterSetUser(s, user, None))
    ensures AuthHeaders(AfterSetUser(s, user, None))["Authorization"] == "Bearer undefined"
  {
  }

  /** `n` scan attempts, each checking `canScan` and counting only when allowed. */
  function GatedScans(s: Slots, n: nat): Slots
    decreases n
  {
    if n == 0 then s
    else
      var next := if CanScan(s) then AfterIncrement(s) else s;
      GatedScans(next, n - 1)
  }

  /** How many of those `n` attempts were allowed. */
  function ScansGranted(s: Slots, n: nat): nat
    decreases n
  {
    if n == 0 then 0
    else if CanScan(s) then 1 + ScansGranted(AfterIncrement(s), n - 1)
    else ScansGranted(s, n - 1)
  }

  /** A logged-out visitor is granted exactly the free scans that remain and
      no more, however many times they try, and the count never passes the
      limit through the gate. */
  lemma {:induction false} FreeScanLimit(s: Slots, n: nat)
    requires !LoggedIn(s)
    ensures ScansGranted(s, n) == if n < Remaining(s) then n else Remaining(s)
    ensures Count(GatedScans(s, n)) == Count(s) + ScansGranted(s, n)
    ensures Count(s) <= FreeScans ==> Count(GatedScans(s, n)) <= FreeScans
    decreases n
  {
    if n > 0 {
      if CanScan(s) {
        FreeScanLimit(AfterIncrement(s), n - 1);
      } else {
        FreeScanLimit(s, n - 1);
      }
    }
  }

  /** The storage slots, updated in place. */
  class AuthConfig {
    var user: Option<JsValue>
    var userToken: Option<string>
    var scanCount: Option<nat>

    function State(): Slots
      reads this
    {
      Slots(user, userToken, scanCount)
    }

    constructor (initial: Slots)
      ensures State() == initial
    {
      user := initial.user;
      userToken := initial.token;
      scanCount := initial.scanCount;
    }

    function IsLoggedIn(): bool
      reads this
    {
      LoggedIn(State())
    }

    function ScanCount(): nat
      reads this
    {
      Count(State())
    }

    function CanScanNow(): bool
      reads this
    {
      CanScan(State())
    }

    function RemainingScans(): int
      reads this
    {
      Remaining(State())
    }

    /** `getAuthHeaders()`. */
    function GetAuthHeaders(): map<string, string>
      reads this
    {
      AuthHeaders(State())
    }

    /** `setUser(user, token)`: the three `setItem` calls. */
    method SetUser(u: JsValue, token: Option<string>)
      modifies this
      ensures State() == AfterSetUser(old(State()), u, token)
    {
      user := Some(u);
      userToken := Some(StoredToken(token));
      scanCount := Some(0);
    }

    /** `logout()`: two removals and a reset. */
    method Logout()
      modifies this
      ensures State() == AfterLogout(old(State()))
    {
      user := None;
      userToken := None;
      scanCount := Some(0);
    }

    /** `incrementScan()`: returns the new count. */
    method IncrementScan() returns (newCount: nat)
      modifies this
      ensures State() == AfterIncrement(old(State()))
      ensures newCount == old(ScanCount()) + 1 && newCount == ScanCount()
    {
      var current := if scanCount.Some? then scanCount.value else 0;
      newCount := current + 1;
      scanCount := Some(newCount);
    }
  }
}
