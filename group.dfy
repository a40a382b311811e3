/** Groups of guests: comparison by per-category counts and parsing
    (`api/models/Group.ts`). */
module Groups {
  import opened Js
  import opened Guests

  /** A group: its guests, in stored order, and the stored `headcount` field. */
  datatype Group = Group(allGuests: seq<Guest>, headcount: int)

  /** The number of guests whose category name is `name`. */
  function Count(guests: seq<Guest>, name: string): (n: nat)
    ensures n <= |guests|
    ensures name !in GuestTypes ==> n == 0
  {
    if guests == [] then 0
    else Count(guests[..|guests| - 1], name) + (if TypeName(guests[|guests| - 1]) == name then 1 else 0)
  }

  /** `map.get(type) || 0`: a missing entry reads as zero. */
  function CountIn(m: map<string, nat>, name: string): nat
  {
    if name in m then m[name] else 0
  }

  /** `groupToMap`: one entry per category present in the group, holding the
      number of its guests of that category. */
  method GroupToMap(group: Group) returns (m: map<string, nat>)
    ensures forall name :: name in m <==> Count(group.allGuests, name) > 0
    ensures forall name :: CountIn(m, name) == Count(group.allGuests, name)
  {
    var guests := group.allGuests;
    m := map[];
    for i := 0 to |guests|
      invariant forall name :: name in m <==> Count(guests[..i], name) > 0
      invariant forall name :: CountIn(m, name) == Count(guests[..i], name)
    {
      var name := TypeName(guests[i]);
      var count := CountIn(m, name);
      m := m[name := count + 1];
      assert guests[..i + 1][..i] == guests[..i];
    }
    assert guests[..|guests|] == guests;
  }

  /** Each guest falls in exactly one category, so the five counts add up to the
      number of guests. */
  lemma {:induction false} CountsSumToLength(guests: seq<Guest>)
    ensures Count(guests, "Adult") + Count(guests, "Child") + Count(guests, "Parent")
            + Count(guests, "Student") + Count(guests, "Staff") == |guests|
  {
    if guests != [] {
      CountsSumToLength(guests[..|guests| - 1]);
    }
  }

  /** The count of a category is the multiplicity of its guest in the group. */
  lemma {:induction false} CountIsMultiplicity(guests: seq<Guest>, g: Guest)
    ensures Count(guests, TypeName(g)) == multiset(guests)[g]
  {
    if guests != [] {
      var n := |guests| - 1;
      CountIsMultiplicity(guests[..n], g);
      assert guests == guests[..n] + [guests[n]];
      TypeNameInjective(guests[n], g);
    }
  }

  /** The comparison `isSameGroup` decides: equal counts for every recognised
      category (an absent category counts as zero). */
  predicate SameGroup(one: Group, other: Group)
  {
    forall i :: 0 <= i < |GuestTypes| ==> Count(one.allGuests, GuestTypes[i]) == Count(other.allGuests, GuestTypes[i])
  }

  /** `isSameGroup`: builds both count maps, then compares them category by
      category, returning at the first difference. Only the guest lists are
      compared, never the stored headcounts. */
  method IsSameGroup(one: Group, other: Group) returns (same: bool)
    ensures same == SameGroup(one, other)
    ensures same <==> multiset(one.allGuests) == multiset(other.allGuests)
  {
    SameGroupIffSameGuests(one, other);
    var oneMap := GroupToMap(one);
    var otherMap := GroupToMap(other);
    for i := 0 to |GuestTypes|
      invariant forall j :: 0 <= j < i ==> Count(one.allGuests, GuestTypes[j]) == Count(other.allGuests, GuestTypes[j])
    {
      var name := GuestTypes[i];
      if CountIn(oneMap, name) != CountIn(otherMap, name) {
        return false;
      }
    }
    return true;
  }

  /** Two groups are the same exactly when they hold the same guests, in any order. */
  lemma SameGroupIffSameGuests(one: Group, other: Group)
    ensures SameGroup(one, other) <==> multiset(one.allGuests) == multiset(other.allGuests)
  {
    if SameGroup(one, other) {
      forall g: Guest
        ensures multiset(one.allGuests)[g] == multiset(other.allGuests)[g]
      {
        CountIsMultiplicity(one.allGuests, g);
        CountIsMultiplicity(other.allGuests, g);
        var i :| 0 <= i < |GuestTypes| && GuestTypes[i] == TypeName(g);
      }
      assert multiset(one.allGuests) == multiset(other.allGuests);
    }
    if multiset(one.allGuests) == multiset(other.allGuests) {
      forall i | 0 <= i < |GuestTypes|
        ensures Count(one.allGuests, GuestTypes[i]) == Count(other.allGuests, GuestTypes[i])
      {
        var g := GuestFromString(GuestTypes[i]).value;
        CountIsMultiplicity(one.allGuests, g);
        CountIsMultiplicity(other.allGuests, g);
      }
    }
  }

  /** `isSameGroup` is reflexive, symmetric and transitive. */
  lemma SameGroupIsEquivalence(a: Group, b: Group, c: Group)
    ensures SameGroup(a, a)
    ensures SameGroup(a, b) == SameGroup(b, a)
    ensures SameGroup(a, b) && SameGroup(b, c) ==> SameGroup(a, c)
  {
  }

  /** Reordering either group's guests, or changing its stored headcount, never
      changes the comparison. */
  lemma SameGroupIgnoresOrderAndHeadcount(a: Group, a': Group, b: Group)
    requires multiset(a.allGuests) == multiset(a'.allGuests)
    ensures SameGroup(a, b) == SameGroup(a', b)
  {
    SameGroupIffSameGuests(a, b);
    SameGroupIffSameGuests(a', b);
  }

  /** One `all_guests` entry of an untyped group object: its `type` field decoded
      as a guest; null (None) when the field is missing or not a category name; a
      TypeError when the entry itself is undefined or null. */
  function GuestEntry(entry: Value): (r: Js<Option<Guest>>)
    ensures r.Throw? <==> entry.Undefined? || entry.Null?
    ensures r.Return? && r.value.Some? ==>
              entry.Obj? && "type" in entry.fields && entry.fields["type"] == Str(TypeName(r.value.value))
    ensures (entry.Obj? && "type" in entry.fields && entry.fields["type"].Str? &&
             entry.fields["type"].s in GuestTypes) ==> r.Return? && r.value.Some?
  {
    match Prop(entry, "type")
    case Throw => Throw
    case Return(t) => if t.Undefined? then Return(None) else Return(GuestFromValue(t))
  }

  /** The `map`/`filter` pass of `groupFromObject`: the recognised guests, in order. */
  function KeptGuests(entries: seq<Value>): (r: Js<seq<Guest>>)
    ensures r.Return? ==> |r.value| <= |entries|
  {
    if entries == [] then Return([])
    else
      match (KeptGuests(entries[..|entries| - 1]), GuestEntry(entries[|entries| - 1]))
      case (Throw, _) => Throw
      case (_, Throw) => Throw
      case (Return(kept), Return(g)) => Return(kept + if g.Some? then [g.value] else [])
  }

  /** `groupFromObject`: null (None) for an undefined object or one without
      `all_guests`; otherwise the recognised guests in order, with the headcount
      recomputed from them. */
  function GroupFromObject(obj: Value): (r: Js<Option<Group>>)
    ensures r == Return(None) <==> obj.Undefined? || Prop(obj, "all_guests") == Return(Undefined)
    ensures r.Throw? <==> !obj.Undefined? &&
                          match Prop(obj, "all_guests")
                          case Throw => true
                          case Return(all) => !all.Undefined? && (!all.Arr? || KeptGuests(all.elems).Throw?)
    ensures r.Return? && r.value.Some? ==>
              && Prop(obj, "all_guests").Return? && Prop(obj, "all_guests").value.Arr?
              && KeptGuests(Prop(obj, "all_guests").value.elems) == Return(r.value.value.allGuests)
              && r.value.value.headcount == |r.value.value.allGuests|
  {
    if obj.Undefined? then Return(None)
    else
      match Prop(obj, "all_guests")
      case Throw => Throw
      case Return(all) =>
        if all.Undefined? then Return(None)
        else if !all.Arr? then Throw
        else
          match KeptGuests(all.elems)
          case Throw => Throw
          case Return(guests) => Return(Some(Group(guests, |guests|)))
  }

  /** Parsing works entry by entry: the guests kept from a concatenation are those
      kept from each part, in order, and a TypeError in either part is one in the whole. */
  lemma {:induction false} KeptGuestsAppend(a: seq<Value>, b: seq<Value>)
    ensures KeptGuests(a + b) ==
              match (KeptGuests(a), KeptGuests(b))
              case (Return(x), Return(y)) => Return(x + y)
              case _ => Throw
    decreases |b|
  {
    if b == [] {
      assert a + b == a;
      assert KeptGuests(b) == Return([]);
      if KeptGuests(a).Return? {
        assert KeptGuests(a).value + [] == KeptGuests(a).value;
      }
    } else {
      var n := |b| - 1;
      assert (a + b)[..|a + b| - 1] == a + b[..n];
      assert (a + b)[|a + b| - 1] == b[n];
      KeptGuestsAppend(a, b[..n]);
      match (KeptGuests(a), KeptGuests(b[..n]), GuestEntry(b[n]))
      case (Return(x), Return(y), Return(g)) =>
        var last: seq<Guest> := if g.Some? then [g.value] else [];
        assert (x + y) + last == x + (y + last);
      case _ =>
    }
  }

  /** An entry whose `type` names a recognised category is kept as that guest. */
  lemma KeptRecognised(entry: Value, g: Guest)
    requires entry.Obj? && "type" in entry.fields && entry.fields["type"] == Str(TypeName(g))
    ensures KeptGuests([entry]) == Return([g])
  {
    assert [entry][..0] == [];
    var h := GuestEntry(entry).value.value;
    assert Str(TypeName(h)) == Str(TypeName(g));
    TypeNameInjective(g, h);
    assert KeptGuests([entry]) == Return([] + [h]);
    assert [] + [h] == [g];
  }

  /** An entry other than undefined and null whose `type` is missing or not a
      category name is dropped; so is every string, number, boolean, array or
      reference entry, whose `type` reads as undefined. */
  lemma DropsUnrecognised(entry: Value)
    requires !entry.Undefined? && !entry.Null?
    requires !entry.Obj? || "type" !in entry.fields || GuestFromValue(entry.fields["type"]).None?
    ensures KeptGuests([entry]) == Return([])
  {
    assert [entry][..0] == [];
  }

  /** The parse fails with a TypeError exactly when some entry is undefined or null. */
  lemma {:induction false} KeptGuestsThrows(entries: seq<Value>)
    ensures KeptGuests(entries).Throw? <==> exists i :: 0 <= i < |entries| && (entries[i].Undefined? || entries[i].Null?)
  {
    if entries != [] {
      var n := |entries| - 1;
      KeptGuestsThrows(entries[..n]);
      assert forall i :: 0 <= i < n ==> entries[..n][i] == entries[i];
    }
  }

  /** The object a group is stored as: `{all_guests: [{type: …}, …]}`. */
  function GuestObject(g: Guest): Value
  {
    Obj(map["type" := Str(TypeName(g))])
  }

  function GroupObject(guests: seq<Guest>): Value
  {
    Obj(map["all_guests" := Arr(seq(|guests|, i requires 0 <= i < |guests| => GuestObject(guests[i])))])
  }

  /** Round trip: parsing the stored form of a list of guests gives that list back,
      with its length as headcount. */
  lemma GroupObjectRoundTrip(guests: seq<Guest>)
    ensures GroupFromObject(GroupObject(guests)) == Return(Some(Group(guests, |guests|)))
  {
    KeptGuestsOfObjects(guests);
  }

  lemma {:induction false} KeptGuestsOfObjects(guests: seq<Guest>)
    ensures KeptGuests(seq(|guests|, i requires 0 <= i < |guests| => GuestObject(guests[i]))) == Return(guests)
  {
    var entries := seq(|guests|, i requires 0 <= i < |guests| => GuestObject(guests[i]));
    if guests != [] {
      var n := |guests| - 1;
      KeptGuestsOfObjects(guests[..n]);
      assert entries[..n] == seq(n, i requires 0 <= i < n => GuestObject(guests[..n][i]));
      assert guests == guests[..n] + [guests[n]];
    }
  }

  /** The filter of `groupFromDocument` over the stored `all_guests` value: each
      element goes straight to `guestFromString`, unrecognised ones are dropped, and
      a value that is not an array fails its `map` call with a TypeError. */
  function GroupFromDocumentField(allGuests: Value): (r: Js<Group>)
    ensures r.Throw? <==> !allGuests.Arr?
    ensures r.Return? ==> r.value.allGuests == RecognisedNames(allGuests.elems)
    ensures r.Return? ==> r.value.headcount == |r.value.allGuests| <= |allGuests.elems|
  {
    if allGuests.Arr? then
      var guests := RecognisedNames(allGuests.elems);
      Return(Group(guests, |guests|))
    else Throw
  }

  function RecognisedNames(elems: seq<Value>): (guests: seq<Guest>)
    ensures |guests| <= |elems|
  {
    if elems == [] then []
    else
      var g := GuestFromValue(elems[|elems| - 1]);
      RecognisedNames(elems[..|elems| - 1]) + if g.Some? then [g.value] else []
  }

  /** The recognised names of a concatenation are those of each part, in order. */
  lemma {:induction false} RecognisedNamesAppend(a: seq<Value>, b: seq<Value>)
    ensures RecognisedNames(a + b) == RecognisedNames(a) + RecognisedNames(b)
    decreases |b|
  {
    if b == [] {
      assert a + b == a;
    } else {
      var n := |b| - 1;
      assert (a + b)[..|a + b| - 1] == a + b[..n];
      assert (a + b)[|a + b| - 1] == b[n];
      RecognisedNamesAppend(a, b[..n]);
    }
  }

  /** One element: kept exactly when it is a recognised category name, and then
      as the guest of that name. */
  lemma RecognisedNamesSingle(v: Value)
    ensures |RecognisedNames([v])| == if v.Str? && v.s in GuestTypes then 1 else 0
    ensures forall g :: g in RecognisedNames([v]) ==> Str(TypeName(g)) == v
  {
    assert [v][..0] == [];
  }

  /** Round trip: a stored list of category names is parsed back into its guests. */
  lemma {:induction false} GroupFromDocumentRoundTrip(guests: seq<Guest>)
    ensures GroupFromDocumentField(Arr(seq(|guests|, i requires 0 <= i < |guests| => Str(TypeName(guests[i])))))
            == Return(Group(guests, |guests|))
  {
    var names := seq(|guests|, i requires 0 <= i < |guests| => Str(TypeName(guests[i])));
    if guests != [] {
      var n := |guests| - 1;
      GroupFromDocumentRoundTrip(guests[..n]);
      assert names[..n] == seq(n, i requires 0 <= i < n => Str(TypeName(guests[..n][i])));
      assert guests == guests[..n] + [guests[n]];
    }
  }
}
