/** From a caller identity to the organisation's implicit private collection, and to the domain
    that student identifiers carry. */
module Identity {
  import opened BookTypes
  import opened Text

  datatype Option<T> = None | Some(value: T)

  /** Length of every match of the pattern Admin@org([0-9]).example.com. */
  const MatchLength := 22

  /** The pattern Admin@org([0-9]).example.com matches `s` at position `i`. Its two dots are not
      escaped, so each stands for any character except a newline, as in Go's regexp package. */
  predicate MatchesAt(s: string, i: nat)
  {
    && i + MatchLength <= |s|
    && s[i..i + 9] == "Admin@org"
    && '0' <= s[i + 9] <= '9'
    && s[i + 10] != '\n'
    && s[i + 11..i + 18] == "example"
    && s[i + 18] != '\n'
    && s[i + 19..i + 22] == "com"
  }

  /** The leftmost match at or after `from`; for a fixed-length pattern this is the match
      FindStringSubmatch reports. */
  function FirstMatchFrom(s: string, from: nat): (r: Option<nat>)
    ensures r.Some? ==> from <= r.value && MatchesAt(s, r.value)
    ensures r.Some? ==> forall j :: from <= j < r.value ==> !MatchesAt(s, j)
    ensures r.None? ==> forall j: nat :: from <= j ==> !MatchesAt(s, j)
    decreases |s| - from
  {
    if from + MatchLength > |s| then None
    else if MatchesAt(s, from) then Some(from)
    else FirstMatchFrom(s, from + 1)
  }

  /** The name of the implicit private collection of organisation number `digit`. */
  function CollectionName(digit: char): string
  {
    "_implicit_org_Org" + [digit] + "MSP"
  }

  /** GetPrivateCollection: the collection named after the digit captured by the leftmost match,
      or a parse failure when the pattern occurs nowhere in the caller. */
  function GetPrivateCollection(caller: string): (r: Result<string>)
    ensures r.Ok? <==> exists i: nat :: MatchesAt(caller, i)
    ensures r.Ok? ==> exists i: nat :: && MatchesAt(caller, i)
                                   && (forall j :: 0 <= j < i ==> !MatchesAt(caller, j))
                                   && r.value == CollectionName(caller[i + 9])
    ensures r.Err? ==> r.error == OrgUnparsable(caller)
  {
    match FirstMatchFrom(caller, 0)
    case Some(i) => Ok(CollectionName(caller[i + 9]))
    case None => Err(OrgUnparsable(caller))
  }

  /** The second "@"-separated token of the caller, or "" when there is none. */
  function Domain(caller: string): (d: string)
    ensures '@' !in d
  {
    var tokens := Split(caller, '@');
    if |tokens| >= 2 then tokens[1] else ""
  }

  /** The domain is the text between the first "@" and the next one (or the end). */
  lemma DomainAfterFirstAt(user: string, domain: string, rest: string)
    requires '@' !in user && '@' !in domain
    ensures Domain(user + "@" + domain) == domain
    ensures Domain(user + "@" + domain + "@" + rest) == domain
  {
    SplitAfterPiece(user, domain, '@');
    assert Split(domain, '@') == [domain];
    assert user + "@" + domain + "@" + rest == user + ['@'] + (domain + ['@'] + rest);
    SplitAfterPiece(user, domain + ['@'] + rest, '@');
    SplitAfterPiece(domain, rest, '@');
  }

  lemma NoAtNoDomain(caller: string)
    requires '@' !in caller
    ensures Domain(caller) == ""
  {
  }

  /** The administrator of organisation d, Admin@org<d>.example.com, owns the collection
      _implicit_org_Org<d>MSP. */
  lemma AdminCollection(d: char)
    requires '0' <= d <= '9'
    ensures GetPrivateCollection("Admin@org" + [d] + ".example.com") == Ok(CollectionName(d))
  {
    var caller := "Admin@org" + [d] + ".example.com";
    assert caller[0..9] == "Admin@org";
    assert caller[11..18] == "example";
    assert caller[19..22] == "com";
    assert MatchesAt(caller, 0);
  }

  /** Student identifiers minted by Admin@org<d>.example.com end in org<d>.example.com. */
  lemma AdminDomain(d: char)
    requires '0' <= d <= '9'
    ensures Domain("Admin@org" + [d] + ".example.com") == "org" + [d] + ".example.com"
  {
    var domain := "org" + [d] + ".example.com";
    assert "Admin@org" + [d] + ".example.com" == "Admin" + "@" + domain;
    DomainAfterFirstAt("Admin", domain, "");
  }

  /** The pattern is not anchored and its dots are wildcards: a longer identity whose leftmost
      look-alike of an administrator name names digit d is mapped to the collection of d. */
  lemma {:induction false} LookAlikeIdentity(d: char, c1: char, c2: char, prefix: string, suffix: string)
    requires '0' <= d <= '9' && c1 != '\n' && c2 != '\n'
    requires forall j :: 0 <= j < |prefix| ==> !MatchesAt(prefix + "Admin@org" + [d, c1] + "example" + [c2] + "com" + suffix, j)
    ensures GetPrivateCollection(prefix + "Admin@org" + [d, c1] + "example" + [c2] + "com" + suffix) == Ok(CollectionName(d))
  {
    var caller := prefix + "Admin@org" + [d, c1] + "example" + [c2] + "com" + suffix;
    var i := |prefix|;
    assert caller[i..i + 9] == "Admin@org";
    assert caller[i + 11..i + 18] == "example";
    assert caller[i + 19..i + 22] == "com";
    assert MatchesAt(caller, i);
  }

  /** Different organisation digits give different collections. */
  lemma CollectionNameInjective(d: char, e: char)
    requires CollectionName(d) == CollectionName(e)
    ensures d == e
  {
    assert CollectionName(d)[17] == d && CollectionName(e)[17] == e;
  }

  /** An identity without "Admin@org" followed by a digit, such as a user's, has no collection. */
  lemma {:induction false} UserIdentityRejected(d: char)
    requires '0' <= d <= '9'
    ensures GetPrivateCollection("User1@org" + [d] + ".example.com").Err?
  {
    var caller := "User1@org" + [d] + ".example.com";
    assert |caller| == MatchLength;
    assert caller[0] != 'A';
    forall i: nat | MatchesAt(caller, i) ensures false {
    }
  }
}
