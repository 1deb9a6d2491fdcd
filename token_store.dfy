/** The in-memory token store of the REST layer: opaque token strings mapped
    to the employee they were issued to. The random UUID a token is made
    from is a parameter of issuing. */
module TokenStore {
  import opened Base
  import opened Entities

  /** The mapping after issuing token `t` to `e`. */
  function Issue(tokens: map<string, Employee>, t: string, e: Employee): (m: map<string, Employee>)
    ensures t in m && m[t] == e
    ensures forall k :: k != t ==> (k in m <==> k in tokens) && (k in tokens ==> m[k] == tokens[k])
  {
    tokens[t := e]
  }

  /** getEmployeeForToken on a mapping: null for a null token and for a
      token that was never issued or was revoked. */
  function Resolve(tokens: map<string, Employee>, token: Option<string>): (r: Option<Employee>)
    ensures token.None? ==> r.None?
    ensures r.Some? <==> token.Some? && token.value in tokens
  {
    if token.Some? && token.value in tokens then Some(tokens[token.value]) else None
  }

  /** The mapping after revoking `token`; revoking null changes nothing. */
  function Revoke(tokens: map<string, Employee>, token: Option<string>): (m: map<string, Employee>)
    ensures m.Keys <= tokens.Keys
    ensures token.None? ==> m == tokens
    ensures token.Some? ==> token.value !in m
    ensures forall k :: k in tokens && (token.None? || k != token.value) ==> k in m && m[k] == tokens[k]
  {
    if token.Some? then tokens - {token.value} else tokens
  }

  class AuthTokenStore {
    /** The live tokens. */
    var tokens: map<string, Employee>

    constructor ()
      ensures tokens == map[]
    {
      tokens := map[];
    }

    /** issueToken: stores the mapping under the token made from `uuid`
        and returns that token. */
    method IssueToken(e: Employee, uuid: string) returns (token: string)
      modifies this
      ensures token == uuid
      ensures tokens == Issue(old(tokens), uuid, e)
    {
      token := uuid;
      tokens := tokens[token := e];
    }

    /** getEmployeeForToken: the employee a live token was issued to, null
        for a null or unknown token. */
    function GetEmployeeForToken(token: Option<string>): (r: Option<Employee>)
      reads this
      ensures r.Some? <==> token.Some? && token.value in tokens
      ensures r.Some? ==> r.value == tokens[token.value]
    {
      Resolve(tokens, token)
    }

    /** revokeToken: removes the mapping of a non-null token. */
    method RevokeToken(token: Option<string>)
      modifies this
      ensures tokens == Revoke(old(tokens), token)
    {
      if token.Some? {
        tokens := tokens - {token.value};
      }
    }
  }

  /** A token resolves to the employee it was issued to; every other
      token resolves as before. */
  lemma IssueThenResolve(tokens: map<string, Employee>, t: string, e: Employee, other: string)
    ensures Resolve(Issue(tokens, t, e), Some(t)) == Some(e)
    ensures other != t ==> Resolve(Issue(tokens, t, e), Some(other)) == Resolve(tokens, Some(other))
  {
  }

  /** Issuing a token not yet in use adds exactly one mapping. */
  lemma IssueFreshAddsOne(tokens: map<string, Employee>, t: string, e: Employee)
    requires t !in tokens
    ensures Issue(tokens, t, e).Keys == tokens.Keys + {t}
    ensures |Issue(tokens, t, e)| == |tokens| + 1
  {
  }

  /** A revoked token resolves to null; every other token keeps its
      mapping, including other tokens of the same employee. */
  lemma RevokeThenResolve(tokens: map<string, Employee>, t: string, other: string)
    ensures Resolve(Revoke(tokens, Some(t)), Some(t)) == None
    ensures other != t ==> Resolve(Revoke(tokens, Some(other)), Some(t)) == Resolve(tokens, Some(t))
  {
  }

  /** Revoking null or an unknown token changes nothing, so revoking twice
      is the same as revoking once. */
  lemma RevokeIdempotent(tokens: map<string, Employee>, token: Option<string>)
    ensures Revoke(tokens, None) == tokens
    ensures token.Some? && token.value !in tokens ==> Revoke(tokens, token) == tokens
    ensures Revoke(Revoke(tokens, token), token) == Revoke(tokens, token)
  {
  }
}
