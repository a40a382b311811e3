/** Ticket types: which groups a ticket admits, and decoding a ticket-type
    document (`api/models/TicketType.ts`). */
module TicketTypes {
  import opened Js
  import opened Util
  import opened SafeAs
  import opened Groups

  datatype TicketType = TicketType(
    ticketTypeId: string,
    reservableGroup: seq<Group>,
    displayTicketName: string,
    displayTicketDescription: Option<string>,
    requireTwoFactor: bool)

  /** `isAssignable`: some reservable group of the ticket type is the same group,
      that is, holds the same guests in any order. */
  predicate IsAssignable(ticket: TicketType, group: Group)
    ensures IsAssignable(ticket, group) <==>
            exists i :: 0 <= i < |ticket.reservableGroup| &&
                        multiset(ticket.reservableGroup[i].allGuests) == multiset(group.allGuests)
  {
    SameGroupsIffSameGuests(ticket.reservableGroup, group);
    AnyOf(ticket.reservableGroup, g => SameGroup(g, group))
  }

  lemma SameGroupsIffSameGuests(groups: seq<Group>, group: Group)
    ensures forall i :: 0 <= i < |groups| ==>
              (SameGroup(groups[i], group) <==> multiset(groups[i].allGuests) == multiset(group.allGuests))
  {
    forall i | 0 <= i < |groups|
      ensures SameGroup(groups[i], group) <==> multiset(groups[i].allGuests) == multiset(group.allGuests)
    {
      SameGroupIffSameGuests(groups[i], group);
    }
  }

  /** A ticket type without reservable groups is assignable to no group. */
  lemma NothingAssignableWithoutGroups(ticket: TicketType, group: Group)
    requires ticket.reservableGroup == []
    ensures !IsAssignable(ticket, group)
  {
  }

  /** Reordering the group's guests never changes whether a ticket type is assignable. */
  lemma IsAssignableIgnoresOrder(ticket: TicketType, group: Group, reordered: Group)
    requires multiset(group.allGuests) == multiset(reordered.allGuests)
    ensures IsAssignable(ticket, group) == IsAssignable(ticket, reordered)
  {
  }

  /** The decimal spelling of an index, as `for…in` hands keys out: digits only,
      with no leading zero. */
  function DecimalString(n: nat): (s: string)
    ensures |s| >= 1
    ensures forall i :: 0 <= i < |s| ==> '0' <= s[i] <= '9'
    ensures s[0] == '0' <==> n == 0
    decreases n
  {
    var digit := ['0' + (n % 10) as char];
    if n < 10 then digit else DecimalString(n / 10) + digit
  }

  /** The number a string of decimal digits denotes. */
  function DecimalValue(s: string): nat
    requires forall i :: 0 <= i < |s| ==> '0' <= s[i] <= '9'
  {
    if s == [] then 0
    else 10 * DecimalValue(s[..|s| - 1]) + (s[|s| - 1] - '0') as nat
  }

  /** Round trip: the key handed out for index `n` denotes `n`. */
  lemma {:induction false} DecimalStringRoundTrip(n: nat)
    ensures DecimalValue(DecimalString(n)) == n
    decreases n
  {
    if n >= 10 {
      DecimalStringRoundTrip(n / 10);
      var prefix := DecimalString(n / 10);
      assert (prefix + ['0' + (n % 10) as char])[..|prefix|] == prefix;
    }
  }

  /** Different indices get different keys, so each index reads its own field. */
  lemma DecimalStringInjective(m: nat, n: nat)
    ensures DecimalString(m) == DecimalString(n) ==> m == n
  {
    DecimalStringRoundTrip(m);
    DecimalStringRoundTrip(n);
  }

  /** The values `document.get("reservable_group")[key]` that the loop
      `for (const key in Object.keys(rg))` visits. `for…in` over the array of keys
      hands out the indices "0" … "n-1" of that array, not the keys themselves:
      for an array these index its elements, for a map they are looked up as field
      names, for a string they pick its characters, and a number or a boolean has
      no keys. `Object.keys` of undefined or null raises a TypeError. A document
      reference has no index-named fields, so every value visited is undefined and
      dropped; it is modelled as visiting nothing. */
  function ReservableEntries(rg: Value): (r: Js<seq<Value>>)
    ensures r.Throw? <==> rg.Undefined? || rg.Null?
    ensures rg.Arr? ==> r == Return(rg.elems)
  {
    match rg
    case Undefined => Throw
    case Null => Throw
    case Arr(elems) => Return(elems)
    case Obj(fields) =>
      Return(seq(|fields|, k requires 0 <= k < |fields| =>
                   if DecimalString(k) in fields then fields[DecimalString(k)] else Undefined))
    case Str(s) => Return(seq(|s|, k requires 0 <= k < |s| => Str([s[k]])))
    case _ => Return([])
  }

  /** The groups the loop pushes: every entry `groupFromObject` parses, in order;
      a TypeError from any entry rejects the whole decoding. */
  function ParseGroups(entries: seq<Value>): (r: Js<seq<Group>>)
    ensures r.Return? ==> |r.value| <= |entries|
  {
    if entries == [] then Return([])
    else
      match (ParseGroups(entries[..|entries| - 1]), GroupFromObject(entries[|entries| - 1]))
      case (Throw, _) => Throw
      case (_, Throw) => Throw
      case (Return(groups), Return(g)) => Return(groups + if g.Some? then [g.value] else [])
  }

  /** `ticketTypeFromDocument`, as a function of the document snapshot. The
      reservable groups are decoded first, so a TypeError there wins over a missing
      name. `reservable_group === []` compares references and is never true, so an
      empty list of groups is accepted. */
  function TicketTypeOf(doc: Snapshot): (r: Js<Option<TicketType>>)
    ensures r.Throw? <==> ReservableEntries(doc.Get("reservable_group")).Throw? ||
                          ParseGroups(ReservableEntries(doc.Get("reservable_group")).value).Throw?
    ensures r == Return(None) <==> !r.Throw? &&
                                   (!doc.Get("display_ticket_name").Str? || !doc.Get("require_two_factor").Bool?)
    ensures r.Return? && r.value.Some? ==>
              var t := r.value.value;
              && t.ticketTypeId == doc.ref.id
              && t.reservableGroup == ParseGroups(ReservableEntries(doc.Get("reservable_group")).value).value
              && Str(t.displayTicketName) == doc.Get("display_ticket_name")
              && t.displayTicketDescription == SafeAsString(doc.Get("display_ticket_description"))
              && Bool(t.requireTwoFactor) == doc.Get("require_two_factor")
  {
    var name := SafeAsString(doc.Get("display_ticket_name"));
    var description := SafeAsString(doc.Get("display_ticket_description"));
    var twoFactor := SafeAsBoolean(doc.Get("require_two_factor"));
    match ReservableEntries(doc.Get("reservable_group"))
    case Throw => Throw
    case Return(entries) =>
      match ParseGroups(entries)
      case Throw => Throw
      case Return(groups) =>
        if name.None? || twoFactor.None? then Return(None)
        else Return(Some(TicketType(doc.ref.id, groups, name.value, description, twoFactor.value)))
  }

  /** `ticketTypeFromDocument`: the loop pushes each parsed group in turn. */
  method TicketTypeFromDocument(doc: Snapshot) returns (r: Js<Option<TicketType>>)
    ensures r == TicketTypeOf(doc)
  {
    var name := SafeAsString(doc.Get("display_ticket_name"));
    var description := SafeAsString(doc.Get("display_ticket_description"));
    var twoFactor := SafeAsBoolean(doc.Get("require_two_factor"));
    var keys := ReservableEntries(doc.Get("reservable_group"));
    if keys.Throw? {
      return Throw;
    }
    var entries := keys.value;
    var reservable: seq<Group> := [];
    for k := 0 to |entries|
      invariant ParseGroups(entries[..k]) == Return(reservable)
    {
      assert entries[..k + 1][..k] == entries[..k];
      var group := GroupFromObject(entries[k]);
      if group.Throw? {
        ParseGroupsThrows(entries);
        return Throw;
      }
      var kept: seq<Group> := if group.value.Some? then [group.value.value] else [];
      assert ParseGroups(entries[..k + 1]) == Return(reservable + kept);
      reservable := reservable + kept;
    }
    assert entries[..|entries|] == entries;
    if name.None? || twoFactor.None? {
      return Return(None);
    }
    return Return(Some(TicketType(doc.ref.id, reservable, name.value, description, twoFactor.value)));
  }

  /** Decoding fails with a TypeError exactly when some entry does. */
  lemma {:induction false} ParseGroupsThrows(entries: seq<Value>)
    ensures ParseGroups(entries).Throw? <==> exists i :: 0 <= i < |entries| && GroupFromObject(entries[i]).Throw?
  {
    if entries != [] {
      var n := |entries| - 1;
      ParseGroupsThrows(entries[..n]);
      assert forall i :: 0 <= i < n ==> entries[..n][i] == entries[i];
    }
  }

  /** The groups decoded from a concatenation are those of each part, in order. */
  lemma {:induction false} ParseGroupsAppend(a: seq<Value>, b: seq<Value>)
    ensures ParseGroups(a + b) ==
              match (ParseGroups(a), ParseGroups(b))
              case (Return(x), Return(y)) => Return(x + y)
              case _ => Throw
    decreases |b|
  {
    if b == [] {
      assert a + b == a;
      assert ParseGroups(b) == Return([]);
      if ParseGroups(a).Return? {
        assert ParseGroups(a).value + [] == ParseGroups(a).value;
      }
    } else {
      var n := |b| - 1;
      assert (a + b)[..|a + b| - 1] == a + b[..n];
      assert (a + b)[|a + b| - 1] == b[n];
      ParseGroupsAppend(a, b[..n]);
      match (ParseGroups(a), ParseGroups(b[..n]), GroupFromObject(b[n]))
      case (Return(x), Return(y), Return(g)) =>
        var last: seq<Group> := if g.Some? then [g.value] else [];
        assert (x + y) + last == x + (y + last);
      case _ =>
    }
  }

  /** An entry `groupFromObject` turns into null is skipped; one it parses is kept. */
  lemma ParseGroupsSingle(entry: Value)
    ensures ParseGroups([entry]) ==
              match GroupFromObject(entry)
              case Throw => Throw
              case Return(None) => Return([])
              case Return(Some(g)) => Return([g])
  {
    assert [entry][..0] == [];
    if GroupFromObject(entry).Return? && GroupFromObject(entry).value.Some? {
      assert [] + [GroupFromObject(entry).value.value] == [GroupFromObject(entry).value.value];
    }
  }

  /** An empty `reservable_group` array does not make the decoding return null. */
  lemma EmptyReservableGroupAccepted(doc: Snapshot)
    requires doc.Get("reservable_group") == Arr([])
    requires doc.Get("display_ticket_name").Str? && doc.Get("require_two_factor").Bool?
    ensures TicketTypeOf(doc).Return? && TicketTypeOf(doc).value.Some?
    ensures TicketTypeOf(doc).value.value.reservableGroup == []
  {
  }

  /** A `reservable_group` stored as a map whose keys are not "0", "1", … yields
      no groups at all: the loop looks up array indices, not the map's keys. */
  lemma MapKeyedGroupsAreSkipped(fields: map<string, Value>)
    requires forall k: nat :: k < |fields| ==> DecimalString(k) !in fields
    ensures ParseGroups(ReservableEntries(Obj(fields)).value) == Return([])
  {
    var entries := ReservableEntries(Obj(fields)).value;
    assert forall i :: 0 <= i < |entries| ==> entries[i] == Undefined;
    AllUndefinedSkipped(entries);
  }

  lemma {:induction false} AllUndefinedSkipped(entries: seq<Value>)
    requires forall i :: 0 <= i < |entries| ==> entries[i] == Undefined
    ensures ParseGroups(entries) == Return([])
  {
    if entries != [] {
      AllUndefinedSkipped(entries[..|entries| - 1]);
    }
  }
}
