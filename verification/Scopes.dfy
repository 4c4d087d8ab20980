/** Service-account scopes: how a request's scopes are normalised and what a scope list grants. */
module Scopes {
  import opened Prelude
  import GoText

  const ADMIN: string := "identra.admin"
  const ACCOUNTS_MANAGE: string := "identra.service_accounts.manage"

  predicate IsAlphanumeric(c: char) {
    'a' <= c <= 'z' || 'A' <= c <= 'Z' || '0' <= c <= '9'
  }

  /** The pattern [a-zA-Z0-9][a-zA-Z0-9._:*\\/-]{0,127}, anchored at both ends. */
  predicate MatchesScopePattern(s: string) {
    && 1 <= |s| <= 128
    && IsAlphanumeric(s[0])
    && forall i :: 1 <= i < |s| ==> IsAlphanumeric(s[i]) || s[i] in "._:*/-"
  }

  datatype ScopeError = InvalidScope(value: string) | ScopeRequired

  /** What normalizeScopes answers: the first invalid value, or the ascending list of trimmed scopes. */
  function Normalized(values: seq<string>): Result<seq<string>, ScopeError> {
    match CollectScopes(values)
    case Err(e) => Err(e)
    case Ok(scopes) => if scopes == [] then Err(ScopeRequired) else Ok(scopes)
  }

  /** One more value: its trimmed form must match the pattern and is kept once. */
  function AddScope(kept: Result<seq<string>, ScopeError>, value: string): (r: Result<seq<string>, ScopeError>)
    requires kept.Ok? ==> GoText.Ascending(kept.value)
    ensures r.Ok? ==> GoText.Ascending(r.value)
  {
    var scope := GoText.TrimSpace(value);
    if kept.Err? then kept
    else if !MatchesScopePattern(scope) then Err(InvalidScope(value))
    else if scope in kept.value then kept
    else Ok(GoText.InsertSorted(kept.value, scope))
  }

  function CollectScopes(values: seq<string>): (r: Result<seq<string>, ScopeError>)
    ensures r.Ok? ==> GoText.Ascending(r.value)
  {
    if values == [] then Ok([])
    else AddScope(CollectScopes(values[..|values| - 1]), values[|values| - 1])
  }

  lemma CollectStep(values: seq<string>, i: nat)
    requires i < |values|
    ensures CollectScopes(values[..i + 1]) == AddScope(CollectScopes(values[..i]), values[i])
  {
    assert values[..i + 1][..i] == values[..i];
  }

  const TRIM: string -> string := s => GoText.TrimSpace(s)

  function Image(values: seq<string>, f: string -> string): set<string> {
    set v | v in values :: f(v)
  }

  /** The scopes a request asks for. */
  function Trimmed(values: seq<string>): set<string> {
    Image(values, TRIM)
  }

  predicate AllMatch(scopes: set<string>) {
    forall s :: s in scopes ==> MatchesScopePattern(s)
  }

  lemma ImageOneMore(init: seq<string>, last: string, f: string -> string)
    ensures Image(init + [last], f) == Image(init, f) + {f(last)}
  {
    assert forall v :: v in init + [last] <==> v in init || v == last;
  }

  /** The result is ascending, has the trimmed values as its members, and is there exactly when each of
      them matches the pattern. */
  lemma {:induction false} CollectMeaning(values: seq<string>)
    ensures CollectScopes(values).Ok? <==> AllMatch(Trimmed(values))
    ensures CollectScopes(values).Ok? ==> GoText.Ascending(CollectScopes(values).value)
    ensures CollectScopes(values).Ok? ==> forall s :: s in CollectScopes(values).value <==> s in Trimmed(values)
  {
    if values != [] {
      var init, last := values[..|values| - 1], values[|values| - 1];
      CollectMeaning(init);
      assert values == init + [last];
      ImageOneMore(init, last, TRIM);
    }
  }

  /** The normalisation as it runs: a set is filled, copied out in any order and sorted. */
  method NormalizeScopes(values: seq<string>) returns (r: Result<seq<string>, ScopeError>)
    ensures r == Normalized(values)
  {
    var unique := CollectUnique(values);
    if unique.Err? { return Err(unique.error); }
    var scopes := CopyOut(unique.value);
    scopes := GoText.SortStrings(scopes);
    GoText.AscendingUnique(scopes, CollectScopes(values).value);
    if |unique.value| == 0 {
      if scopes != [] { GoText.HasMember(scopes); }
      return Err(ScopeRequired);
    }
    var x :| x in unique.value;
    assert x in scopes;
    return Ok(scopes);
  }

  method CollectUnique(values: seq<string>) returns (r: Result<set<string>, ScopeError>)
    ensures r.Ok? <==> CollectScopes(values).Ok?
    ensures r.Ok? ==> forall s :: s in r.value <==> s in CollectScopes(values).value
    ensures r.Err? ==> r.error == CollectScopes(values).error
  {
    var unique: set<string> := {};
    for i := 0 to |values|
      invariant CollectScopes(values[..i]).Ok?
      invariant forall s :: s in unique <==> s in CollectScopes(values[..i]).value
    {
      CollectStep(values, i);
      var scope := GoText.TrimSpace(values[i]);
      if !MatchesScopePattern(scope) {
        PrefixDecides(values, i + 1);
        return Err(InvalidScope(values[i]));
      }
      unique := unique + {scope};
    }
    assert values[..|values|] == values;
    return Ok(unique);
  }

  method CopyOut(unique: set<string>) returns (scopes: seq<string>)
    ensures forall s :: s in scopes <==> s in unique
    ensures forall i, j :: 0 <= i < j < |scopes| ==> scopes[i] != scopes[j]
  {
    scopes := [];
    var rest := unique;
    while rest != {}
      invariant forall s :: s in unique <==> s in rest || s in scopes
      invariant forall s :: s in scopes ==> s !in rest
      invariant forall i, j :: 0 <= i < j < |scopes| ==> scopes[i] != scopes[j]
      decreases rest
    {
      var scope :| scope in rest;
      scopes := scopes + [scope];
      rest := rest - {scope};
    }
  }

  /** An error found in a prefix is the answer for the whole list. */
  lemma {:induction false} ErrorsPersist(values: seq<string>, rest: seq<string>)
    requires CollectScopes(values).Err?
    ensures CollectScopes(values + rest) == CollectScopes(values)
    decreases |rest|
  {
    if rest == [] {
      assert values + rest == values;
    } else {
      var init := rest[..|rest| - 1];
      assert (values + rest)[..|values + rest| - 1] == values + init;
      ErrorsPersist(values, init);
    }
  }

  lemma PrefixDecides(values: seq<string>, i: nat)
    requires i <= |values|
    ensures CollectScopes(values[..i]).Err? ==> CollectScopes(values) == CollectScopes(values[..i])
  {
    if CollectScopes(values[..i]).Err? { ErrorsPersist(values[..i], values[i..]); }
    assert values[..i] + values[i..] == values;
  }

  // ---- granting ----------------------------------------------------------------------------------

  /** One scope grants a permission: it is admin, it is the permission, or its last character is '*'
      and the permission starts with what comes before it. */
  predicate Grants(scope: string, required: string) {
    || scope == ADMIN
    || scope == required
    || (GoText.HasSuffix(scope, "*") && GoText.HasPrefix(required, scope[..|scope| - 1]))
  }

  ghost predicate HasServiceScope(scopes: seq<string>, required: string) {
    exists i :: 0 <= i < |scopes| && Grants(scopes[i], required)
  }

  method CheckServiceScope(scopes: seq<string>, required: string) returns (granted: bool)
    ensures granted <==> HasServiceScope(scopes, required)
  {
    for i := 0 to |scopes|
      invariant forall j :: 0 <= j < i ==> !Grants(scopes[j], required)
    {
      var scope := scopes[i];
      if scope == ADMIN || scope == required { return true; }
      if GoText.HasSuffix(scope, "*") {
        var prefix := scope[..|scope| - 1];
        if GoText.HasPrefix(required, prefix) { return true; }
      }
    }
    return false;
  }

  /** A wildcard stands for any continuation, the empty one included. */
  lemma WildcardMeaning(prefix: string, required: string)
    ensures Grants(prefix + "*", required)
       <==> prefix + "*" == ADMIN || prefix + "*" == required || exists rest: string :: required == prefix + rest
  {
    assert (prefix + "*")[..|prefix + "*"| - 1] == prefix;
    if GoText.HasPrefix(required, prefix) { assert required == prefix + required[|prefix|..]; }
    if rest: string :| required == prefix + rest { assert required[..|prefix|] == prefix; }
  }

  /** Normalising a request neither adds nor loses a grant. */
  lemma NormalisingKeepsGrants(values: seq<string>, required: string)
    requires Normalized(values).Ok?
    ensures HasServiceScope(Normalized(values).value, required)
       <==> exists v :: v in values && Grants(GoText.TrimSpace(v), required)
  {
    CollectMeaning(values);
    var scopes := Normalized(values).value;
    if v :| v in values && Grants(GoText.TrimSpace(v), required) {
      assert GoText.TrimSpace(v) in scopes;
    }
    if HasServiceScope(scopes, required) {
      var i :| 0 <= i < |scopes| && Grants(scopes[i], required);
      assert scopes[i] in scopes;
    }
  }

  /** More scopes grant at least as much. */
  lemma GrantingIsMonotone(fewer: seq<string>, more: seq<string>, required: string)
    requires forall s :: s in fewer ==> s in more
    requires HasServiceScope(fewer, required)
    ensures HasServiceScope(more, required)
  {
    var i :| 0 <= i < |fewer| && Grants(fewer[i], required);
    assert fewer[i] in more;
  }

  /** A shorter wildcard grants everything a longer one does. */
  lemma ShorterWildcardGrantsMore(shorter: string, longer: string, required: string)
    requires GoText.HasPrefix(longer, shorter) && Grants(longer + "*", required)
    ensures Grants(shorter + "*", required)
  {
    assert (longer + "*")[|longer|] == '*';
    assert (longer + "*")[..|longer + "*"| - 1] == longer;
    assert (shorter + "*")[..|shorter + "*"| - 1] == shorter;
    assert ADMIN[|ADMIN| - 1] == 'n';
    assert required[..|shorter|] == longer[..|shorter|];
  }
}
