/** Claimants and their keys (claimant-shares.ts). */
module Claimants {
  import opened Wrappers

  datatype Claimant =
    | User(userId: string)
    | Identity(provider: string, externalId: string, providerLogin: Option<string>)
  {
    /** The same claimant as far as its key can tell: the provider login is display metadata. */
    function WithoutLogin(): Claimant {
      match this
      case User(_) => this
      case Identity(p, e, _) => Identity(p, e, None)
    }
  }

  datatype KeyError = InvalidIdentityKey(key: string) | UnknownKeyFormat(key: string)

  const USER := "user:"
  const IDENTITY := "identity:"

  function ClaimantKey(c: Claimant): string {
    match c
    case User(userId) => USER + userId
    case Identity(provider, externalId, _) => IDENTITY + provider + ":" + externalId
  }

  /** The first position of a character, or None. */
  function IndexOf(s: string, c: char): (r: Option<nat>)
    ensures r.None? ==> c !in s
    ensures r.Some? ==> r.value < |s| && s[r.value] == c && forall j :: 0 <= j < r.value ==> s[j] != c
  {
    if |s| == 0 then None
    else if s[0] == c then Some(0)
    else
      match IndexOf(s[1..], c)
      case None => None
      case Some(i) => Some(i + 1)
  }

  function ParseClaimantKey(key: string): Result<Claimant, KeyError> {
    if USER <= key then
      Ok(User(key[5..]))
    else if IDENTITY <= key then
      var rest := key[9..];
      match IndexOf(rest, ':')
      case None => Err(InvalidIdentityKey(key))
      case Some(i) => Ok(Identity(rest[..i], rest[i + 1..], None))
    else
      Err(UnknownKeyFormat(key))
  }

  /** Printing a parsed key returns it, and the keys rejected are exactly those no claimant prints. */
  lemma ParseThenPrint(key: string)
    ensures ParseClaimantKey(key).Ok? ==> ClaimantKey(ParseClaimantKey(key).value) == key
    ensures ParseClaimantKey(key).Err? ==> forall c :: ClaimantKey(c) != key
  {
    if USER <= key {
      assert key == USER + key[5..];
    } else if IDENTITY <= key {
      var rest := key[9..];
      assert key == IDENTITY + rest;
      match IndexOf(rest, ':')
      case Some(i) =>
        assert rest == rest[..i] + ":" + rest[i + 1..];
        assert key == IDENTITY + rest[..i] + ":" + rest[i + 1..];
      case None =>
        forall c ensures ClaimantKey(c) != key {
          if c.Identity? {
            var tail := c.provider + ":" + c.externalId;
            assert ClaimantKey(c) == IDENTITY + tail;
            assert tail[|c.provider|] == ':';
            assert ClaimantKey(c)[9..] == tail;
          }
        }
    } else {
      forall c ensures ClaimantKey(c) != key {
        assert USER <= ClaimantKey(c) || IDENTITY <= ClaimantKey(c);
      }
    }
  }

  predicate ColonFreeProvider(c: Claimant) {
    c.Identity? ==> ':' !in c.provider
  }

  /** Parsing a printed claimant returns it, up to the login, exactly when its provider has no colon. */
  lemma PrintThenParse(c: Claimant)
    ensures ParseClaimantKey(ClaimantKey(c)).Ok?
    ensures ParseClaimantKey(ClaimantKey(c)).value == c.WithoutLogin() <==> ColonFreeProvider(c)
  {
    var key := ClaimantKey(c);
    match c
    case User(userId) =>
      assert key[5..] == userId;
    case Identity(provider, externalId, _) =>
      var rest := key[9..];
      assert key[0] != USER[0];
      assert rest == provider + ":" + externalId;
      assert rest[|provider|] == ':';
      var i := IndexOf(rest, ':').value;
      if i < |provider| {
        assert provider[i] == rest[i];
        assert |rest[..i]| != |provider|;
      } else {
        assert rest[..i] == provider && rest[i + 1..] == externalId;
      }
  }

  /** So a key names one claimant, up to the login. */
  lemma KeyNamesClaimant(c: Claimant, d: Claimant)
    requires ColonFreeProvider(c) && ColonFreeProvider(d)
    ensures ClaimantKey(c) == ClaimantKey(d) <==> c.WithoutLogin() == d.WithoutLogin()
  {
    PrintThenParse(c);
    PrintThenParse(d);
  }
}
