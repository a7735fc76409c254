/** The two resource filters that guard the ticket routes: `OwnerOrLocalAdmin`
    (the ticket's owner, a local administrator of its school, or a super
    administrator) and `LocalAdmin` (a local administrator of its school
    only). Each answers a boolean to the request pipeline; the count query
    they send is modelled by its answer over the tickets table, `None`
    standing for a failed query (a null count). */
module Filters {
  import opened Results
  import opened Strings
  import opened TicketServiceSql
  import TicketStatuses
  import EscalationStatuses

  /** The keys of `DefaultFunctions` the filters look up. */
  const AdminLocal := "ADMIN_LOCAL"
  const SuperAdmin := "SUPER_ADMIN"

  /** A function a user holds, with the structures it applies to. */
  datatype UserFunction = UserFunction(scope: Option<seq<string>>)

  /** The acting user: their id and their functions map (`None`: a null map;
      a key mapped to `None`: a null function). */
  datatype Principal = Principal(userId: string, functions: Option<map<string, Option<UserFunction>>>)

  /** The `id` request parameter is present, not blank, and parsed to an
      `Integer` by `Sql.parseId`. */
  predicate ValidTicketId(id: Option<string>) {
    id.Some? && Trim(id.value) != "" && IsSqlIntegerId(id.value)
  }

  /** The local-administration scope used in the query: present only when
      the ADMIN_LOCAL function is held with a non-null, non-empty scope. */
  function LocalScope(functions: map<string, Option<UserFunction>>): (r: Option<seq<string>>)
    ensures r.Some? ==> |r.value| > 0
  {
    if AdminLocal in functions && functions[AdminLocal].Some?
       && functions[AdminLocal].value.scope.Some? && |functions[AdminLocal].value.scope.value| > 0
    then functions[AdminLocal].value.scope
    else None
  }

  /** The count query of `OwnerOrLocalAdmin`: the ticket exists and is owned
      by the user or, with a scope, belongs to one of its schools. */
  predicate OwnerOrScopeCount(tickets: Option<map<int, Ticket>>, ticketId: int, userId: string, scope: Option<seq<string>>) {
    && tickets.Some? && ticketId in tickets.value
    && (tickets.value[ticketId].owner == userId
        || (scope.Some? && tickets.value[ticketId].schoolId in scope.value))
  }

  /** `OwnerOrLocalAdmin.authorize` as written. `None`: the handler is never
      called, because a null functions map passes the first guard and is
      then dereferenced to look up SUPER_ADMIN. */
  function OwnerOrLocalAdminAsWritten(id: Option<string>, user: Principal, tickets: Option<map<int, Ticket>>): (r: Option<bool>)
  {
    if !ValidTicketId(id) then Some(false)
    else if user.functions.None? then None
    else
      var f := user.functions.value;
      var scope := if AdminLocal in f || SuperAdmin in f then LocalScope(f) else None;
      var superAdmin := SuperAdmin in f && f[SuperAdmin].Some?;
      if superAdmin then Some(true)
      else Some(OwnerOrScopeCount(tickets, DigitsValue(id.value), user.userId, scope))
  }

  /** The same filter with a null functions map read as an empty one, as the
      first guard intends: such a user is authorised as an owner only. */
  function OwnerOrLocalAdmin(id: Option<string>, user: Principal, tickets: Option<map<int, Ticket>>): (r: bool)
  {
    var f := user.functions.GetOr(map[]);
    match OwnerOrLocalAdminAsWritten(id, user.(functions := Some(f)), tickets)
    case Some(b) => b
    case None => false
  }

  /** The authorisation rule: a malformed id is refused; a super
      administrator is always let through; anyone else exactly when the
      ticket exists and they own it or administer its school. */
  lemma OwnerOrLocalAdminRule(id: Option<string>, user: Principal, tickets: Option<map<int, Ticket>>)
    ensures !ValidTicketId(id) ==> !OwnerOrLocalAdmin(id, user, tickets)
    ensures ValidTicketId(id) && IsSuperAdmin(user) ==> OwnerOrLocalAdmin(id, user, tickets)
    ensures ValidTicketId(id) && !IsSuperAdmin(user) ==>
      (OwnerOrLocalAdmin(id, user, tickets) <==>
        var t := DigitsValue(id.value);
        && tickets.Some? && t in tickets.value
        && (tickets.value[t].owner == user.userId
            || (ScopeOf(user).Some? && tickets.value[t].schoolId in ScopeOf(user).value)))
    ensures user.functions.Some? ==> OwnerOrLocalAdminAsWritten(id, user, tickets) == Some(OwnerOrLocalAdmin(id, user, tickets))
  {
  }

  /** A local administrator without a usable scope is treated as a plain
      user: only ownership counts. */
  lemma EmptyScopeFallsBackToOwner(id: Option<string>, user: Principal, tickets: Option<map<int, Ticket>>)
    requires ValidTicketId(id) && !IsSuperAdmin(user) && ScopeOf(user).None?
    ensures OwnerOrLocalAdmin(id, user, tickets) <==>
      tickets.Some? && DigitsValue(id.value) in tickets.value && tickets.value[DigitsValue(id.value)].owner == user.userId
  {
  }

  /** A user holding a non-null SUPER_ADMIN function. */
  predicate IsSuperAdmin(user: Principal) {
    user.functions.Some? && SuperAdmin in user.functions.value && user.functions.value[SuperAdmin].Some?
  }

  /** The usable local-administration scope of a user. */
  function ScopeOf(user: Principal): Option<seq<string>> {
    LocalScope(user.functions.GetOr(map[]))
  }

  /** `LocalAdmin.authorize`: a well-formed id, an ADMIN_LOCAL function with a
      non-empty scope, and a ticket of one of the scope's schools. */
  function LocalAdmin(id: Option<string>, user: Principal, tickets: Option<map<int, Ticket>>): (r: bool)
  {
    if !ValidTicketId(id) then false
    else if user.functions.None? || AdminLocal !in user.functions.value then false
    else
      var adminLocal := user.functions.value[AdminLocal];
      if adminLocal.None? || adminLocal.value.scope.None? || |adminLocal.value.scope.value| == 0 then false
      else
        var t := DigitsValue(id.value);
        tickets.Some? && t in tickets.value && tickets.value[t].schoolId in adminLocal.value.scope.value
  }

  /** Only the school counts for `LocalAdmin`: it grants exactly when the
      ticket exists in a school of the user's scope, whoever owns it. A
      malformed id, a user without a usable scope (a super administrator
      included) and a failed count query are all refused. */
  lemma LocalAdminRule(id: Option<string>, user: Principal, tickets: Option<map<int, Ticket>>)
    ensures !ValidTicketId(id) ==> !LocalAdmin(id, user, tickets)
    ensures ScopeOf(user).None? ==> !LocalAdmin(id, user, tickets)
    ensures tickets.None? ==> !LocalAdmin(id, user, tickets)
    ensures LocalAdmin(id, user, tickets) <==>
      && ValidTicketId(id) && ScopeOf(user).Some?
      && tickets.Some? && DigitsValue(id.value) in tickets.value
      && tickets.value[DigitsValue(id.value)].schoolId in ScopeOf(user).value
  {
  }

  /** Changing a ticket's owner does not change what `LocalAdmin` answers. */
  lemma LocalAdminIgnoresOwner(id: Option<string>, user: Principal, tickets: map<int, Ticket>, ticketId: int, owner: string)
    requires ticketId in tickets
    ensures LocalAdmin(id, user, Some(tickets)) ==
      LocalAdmin(id, user, Some(tickets[ticketId := tickets[ticketId].(owner := owner)]))
  {
  }

  /** Whoever passes `LocalAdmin` passes `OwnerOrLocalAdmin`, as written too. */
  lemma LocalAdminImpliesOwnerOrLocalAdmin(id: Option<string>, user: Principal, tickets: Option<map<int, Ticket>>)
    requires LocalAdmin(id, user, tickets)
    ensures OwnerOrLocalAdmin(id, user, tickets)
    ensures OwnerOrLocalAdminAsWritten(id, user, tickets) == Some(true)
  {
  }

  /** One new ticket, 7, owned by user "u". */
  const OwnTicket: map<int, Ticket> := map[7 := Ticket("s", "d", "c", "school", "u", "fr", TicketStatuses.New,
                                                        EscalationStatuses.NotDone, None, 1)]

  /** The null functions map, shown: the owner of ticket 7 asking with id
      "7" gets no answer from the filter as written, and access from the
      corrected one. */
  lemma NullFunctionsGetNoAnswer()
    ensures OwnerOrLocalAdminAsWritten(Some("7"), Principal("u", None), Some(OwnTicket)).None?
    ensures OwnerOrLocalAdmin(Some("7"), Principal("u", None), Some(OwnTicket))
  {
    var tickets := OwnTicket;
    var id := Some("7");
    assert AllDigits("7") by {
      assert forall i :: 0 <= i < |"7"| ==> "7"[i] == '7';
    }
    assert DigitsValue("7") == 7 by {
      assert "7"[..0] == "";
    }
    assert IsSqlIntegerId("7");
    assert Trim("7") != "" by {
      assert TrimStart("7") == "7";
    }
    assert ValidTicketId(id);
    NullFunctionsOwnerOnly(id, Principal("u", None), Some(tickets));
    assert tickets[7].owner == "u";
  }

  /** With a null functions map, the filter as written never answers, and
      the corrected one grants exactly to the ticket's owner. */
  lemma NullFunctionsOwnerOnly(id: Option<string>, user: Principal, tickets: Option<map<int, Ticket>>)
    requires ValidTicketId(id) && user.functions.None?
    ensures OwnerOrLocalAdminAsWritten(id, user, tickets).None?
    ensures OwnerOrLocalAdmin(id, user, tickets) <==>
      tickets.Some? && DigitsValue(id.value) in tickets.value && tickets.value[DigitsValue(id.value)].owner == user.userId
  {
    var f: map<string, Option<UserFunction>> := map[];
    assert AdminLocal !in f && SuperAdmin !in f;
  }
}
