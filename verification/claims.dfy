/** The signed-in principal and the claim lookups the controllers perform
    (`ClaimsPrincipal.FindFirst` chained with `?.Value ??`). */
module Claims {
  import opened Common
  import opened Text

  /** One claim: its type and its value. */
  datatype Claim = Claim(kind: string, value: string)

  /** The request's principal. `authenticated` is `Identity?.IsAuthenticated`:
      `None` when there is no identity at all. */
  datatype Principal = Principal(authenticated: Option<bool>, claims: seq<Claim>)

  /** A principal without an identity carries no claims, since the claims of
      a principal are those of its identities. */
  predicate WellFormed(p: Principal) {
    p.authenticated.None? ==> p.claims == []
  }

  /** `FindFirst(kind)?.Value`: the value of the first claim whose type
      equals `kind` ignoring case, or null. */
  function FindFirst(claims: seq<Claim>, kind: string): (r: Option<string>)
    ensures r.None? <==> forall i :: 0 <= i < |claims| ==> !EqualsIgnoreCase(claims[i].kind, kind)
    ensures r.Some? ==> exists i :: 0 <= i < |claims| && EqualsIgnoreCase(claims[i].kind, kind)
                                    && claims[i].value == r.value
                                    && forall j :: 0 <= j < i ==> !EqualsIgnoreCase(claims[j].kind, kind)
  {
    if |claims| == 0 then None
    else if EqualsIgnoreCase(claims[0].kind, kind) then Some(claims[0].value)
    else
      var r := FindFirst(claims[1..], kind);
      assert forall i :: 1 <= i < |claims| ==> claims[i] == claims[1..][i - 1];
      if r.Some? then
        var i :| 0 <= i < |claims| - 1 && EqualsIgnoreCase(claims[1..][i].kind, kind)
                 && claims[1..][i].value == r.value
                 && forall j :: 0 <= j < i ==> !EqualsIgnoreCase(claims[1..][j].kind, kind);
        assert claims[i + 1] == claims[1..][i];
        r
      else r
  }

  /** None of the first `k` kinds has a claim. */
  predicate AbsentBefore(claims: seq<Claim>, kinds: seq<string>, k: nat)
    requires k <= |kinds|
  {
    forall j :: 0 <= j < k ==> FindFirst(claims, kinds[j]).None?
  }

  /** `FindFirst(k0)?.Value ?? FindFirst(k1)?.Value ?? ...`: the first kind
      that has a claim decides, even when that claim's value is empty. */
  function FirstPresent(claims: seq<Claim>, kinds: seq<string>): (r: Option<string>)
    ensures r.None? <==> AbsentBefore(claims, kinds, |kinds|)
    ensures r.Some? ==> exists k :: 0 <= k < |kinds| && FindFirst(claims, kinds[k]) == r
                                    && AbsentBefore(claims, kinds, k)
  {
    if |kinds| == 0 then None
    else
      var here := FindFirst(claims, kinds[0]);
      if here.Some? then
        assert AbsentBefore(claims, kinds, 0);
        here
      else
        var r := FirstPresent(claims, kinds[1..]);
        AbsentAfterHead(claims, kinds);
        r
  }

  lemma AbsentAfterHead(claims: seq<Claim>, kinds: seq<string>)
    requires |kinds| > 0 && FindFirst(claims, kinds[0]).None?
    ensures forall k :: 0 <= k < |kinds| ==>
      (AbsentBefore(claims, kinds, k + 1) <==> AbsentBefore(claims, kinds[1..], k))
    ensures forall k :: 0 < k < |kinds| ==> kinds[k] == kinds[1..][k - 1]
  {
    forall k | 0 <= k < |kinds|
      ensures AbsentBefore(claims, kinds, k + 1) <==> AbsentBefore(claims, kinds[1..], k)
    {
      assert forall j :: 1 <= j < k + 1 ==> kinds[j] == kinds[1..][j - 1];
    }
  }

  /** An empty claim value stops the chain: `??` falls through on null
      only. */
  lemma EmptyValueStopsChain(claims: seq<Claim>, kinds: seq<string>)
    requires |kinds| > 0 && FindFirst(claims, kinds[0]) == Some("")
    ensures FirstPresent(claims, kinds) == Some("")
  {
  }

  /** Claim types are matched ignoring case. */
  lemma FindFirstIgnoresCase(claims: seq<Claim>, a: string, b: string)
    requires EqualsIgnoreCase(a, b)
    ensures FindFirst(claims, a) == FindFirst(claims, b)
  {
    var ra, rb := FindFirst(claims, a), FindFirst(claims, b);
    forall i | 0 <= i < |claims| ensures EqualsIgnoreCase(claims[i].kind, a) <==> EqualsIgnoreCase(claims[i].kind, b) {
      EqualsIgnoreCaseIsEquivalence(claims[i].kind, a, b);
      EqualsIgnoreCaseIsEquivalence(claims[i].kind, b, a);
      EqualsIgnoreCaseIsEquivalence(a, b, a);
    }
    if ra.Some? && rb.Some? {
      var i :| 0 <= i < |claims| && EqualsIgnoreCase(claims[i].kind, a) && claims[i].value == ra.value
               && forall j :: 0 <= j < i ==> !EqualsIgnoreCase(claims[j].kind, a);
      var k :| 0 <= k < |claims| && EqualsIgnoreCase(claims[k].kind, b) && claims[k].value == rb.value
               && forall j :: 0 <= j < k ==> !EqualsIgnoreCase(claims[j].kind, b);
      assert i == k;
    }
  }

  /** `ClaimTypes.Email`. */
  const EmailAddressClaim := "http://schemas.xmlsoap.org/ws/2005/05/identity/claims/emailaddress"

  /** `ClaimTypes.NameIdentifier`. */
  const NameIdentifierClaim := "http://schemas.xmlsoap.org/ws/2005/05/identity/claims/nameidentifier"

  const ObjectIdentifierClaim := "http://schemas.microsoft.com/identity/claims/objectidentifier"

  /** Where the sign-in page looks for the email, in order. */
  const EmailClaims := ["preferred_username", "email", "upn", EmailAddressClaim]

  /** Where the settings page and the admin navigation look for the email:
      the same list without `ClaimTypes.Email`. */
  const AdminEmailClaims := ["preferred_username", "email", "upn"]

  /** Where the sign-in page looks for the display name. */
  const NameClaims := ["name", "display_name"]

  /** Where the sign-in page looks for the directory object id. */
  const ObjectIdClaims := [ObjectIdentifierClaim, "oid", "sub", NameIdentifierClaim]

  /** The chain without its last kind gives the same answer unless only the
      last kind has a claim. */
  lemma {:induction false} ShorterChain(claims: seq<Claim>, kinds: seq<string>, last: string)
    ensures FirstPresent(claims, kinds + [last]) ==
            (if FirstPresent(claims, kinds).Some? then FirstPresent(claims, kinds) else FindFirst(claims, last))
    decreases |kinds|
  {
    var ks := kinds + [last];
    if |kinds| == 0 {
      assert ks[1..] == [];
    } else {
      assert ks[0] == kinds[0];
      assert ks[1..] == kinds[1..] + [last];
      ShorterChain(claims, kinds[1..], last);
    }
  }
}
