/** `Chii.check_permission`: may the sender run a command restricted to a role? */
module Permission {
  import opened Wrappers

  /** The intended rule. No restriction admits everybody; a restriction admits
      a sender whose nick, host or "nick!host" is listed under the role. A role
      missing from the table admits nobody (fail-closed). */
  predicate Permitted(restrict: Option<string>, nick: string, host: string, roles: map<string, seq<string>>) {
    restrict.None?
    || (restrict.value in roles
        && (nick in roles[restrict.value]
            || host in roles[restrict.value]
            || nick + "!" + host in roles[restrict.value]))
  }

  /** `check_permission` as the source writes it: the role table is indexed
      inside the loop without a membership test, so an unknown role raises
      KeyError before any candidate is tried. */
  function CheckPermissionAsWritten(restrict: Option<string>, nick: string, host: string,
                                    roles: map<string, seq<string>>): (r: Result<bool>)
    ensures r.Err? <==> restrict.Some? && restrict.value !in roles
  {
    if restrict.None? then Ok(true)
    else if restrict.value !in roles then Err("KeyError: " + restrict.value)
    else Ok(nick in roles[restrict.value] || host in roles[restrict.value]
            || nick + "!" + host in roles[restrict.value])
  }

  /** `check_permission` with the missing-role case closed: the candidates
      nick, host and "nick!host" are tried in that order. */
  method CheckPermission(restrict: Option<string>, nick: string, host: string,
                         roles: map<string, seq<string>>) returns (granted: bool)
    ensures granted == Permitted(restrict, nick, host, roles)
  {
    if restrict.None? {
      return true;
    }
    var role := restrict.value;
    if role !in roles {
      return false;
    }
    var members := roles[role];
    var candidates := [nick, host, nick + "!" + host];
    for i := 0 to |candidates|
      invariant forall k :: 0 <= k < i ==> candidates[k] !in members
    {
      if candidates[i] in members {
        return true;
      }
    }
    assert candidates[0] == nick && candidates[1] == host && candidates[2] == nick + "!" + host;
    return false;
  }

  /** The fail-closed rule departs from the source only where the source
      raises: on every role it can resolve, both give the same answer, and
      where it raises the intended rule denies. */
  lemma FailClosedOnlyWhereSourceRaises(restrict: Option<string>, nick: string, host: string,
                                        roles: map<string, seq<string>>)
    ensures CheckPermissionAsWritten(restrict, nick, host, roles).Ok?
            ==> CheckPermissionAsWritten(restrict, nick, host, roles).value == Permitted(restrict, nick, host, roles)
    ensures CheckPermissionAsWritten(restrict, nick, host, roles).Err?
            ==> !Permitted(restrict, nick, host, roles)
  {
  }

  /** Listing the sender under any one of the three forms is enough. */
  lemma MemberIsPermitted(role: string, nick: string, host: string, roles: map<string, seq<string>>, id: string)
    requires role in roles && id in roles[role]
    requires id == nick || id == host || id == nick + "!" + host
    ensures Permitted(Some(role), nick, host, roles)
  {
  }
}
