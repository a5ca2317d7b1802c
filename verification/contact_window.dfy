/**
 The contact-window query of `GET /contacts/?user=<id>&infection_timestamp=<ts>`
 (getContacts in main.go).

 Given a user id `u` and an infection time `T`, the store is asked for every
 contact in which `u` occupies either slot and whose time lies in the
 inclusive window `[T - 14 days, T]`; the handler then walks the cursor and
 collects, for each edge, the endpoint that is not `u`. The contacts
 collection is a `seq<Contact>` in the store's natural order, and the cursor
 is the filtered sub-sequence in that same order.
 */
module ContactWindow {
  import opened Wrappers
  import opened Schema

  /** Length of the trailing window: fourteen days of 86400 seconds each. */
  const FourteenDays: int := 14 * 86400

  /** The infection time the query uses: the parsed timestamp, or the zero
      time when parsing failed (the error is only printed). */
  function InfectionTime(parsed: Option<Time>): (t: Time)
    ensures parsed.None? ==> t == ZeroTime
    ensures parsed.Some? ==> t == parsed.value
  {
    parsed.GetOr(ZeroTime)
  }

  /** First instant of the window that ends at `t`. */
  function WindowStart(t: Time): (lo: Time)
    ensures lo < t
    ensures t - lo == 14 * 24 * 60 * 60
  {
    t - FourteenDays
  }

  /** `u` is one of the two endpoints of `c` (the `$or` of the filter). */
  predicate Involves(c: Contact, u: string)
  {
    c.userIdOne == u || c.userIdTwo == u
  }

  /** The filter document sent to the store: `u` in either slot, and the
      contact time at or after `lo` and at or before `hi`. */
  predicate Matches(c: Contact, u: string, lo: Time, hi: Time)
  {
    && Involves(c, u)
    && c.timeOfContact >= lo
    && c.timeOfContact <= hi
  }

  /** The store's `Find`: the contacts that satisfy the filter, in the order
      in which they occur in the collection, duplicates included. */
  function Select(cs: seq<Contact>, u: string, lo: Time, hi: Time): (r: seq<Contact>)
    ensures |r| <= |cs|
    ensures forall c :: c in r <==> c in cs && Matches(c, u, lo, hi)
  {
    if |cs| == 0 then []
    else if Matches(cs[0], u, lo, hi) then [cs[0]] + Select(cs[1..], u, lo, hi)
    else Select(cs[1..], u, lo, hi)
  }

  /** The endpoint of `c` that is reported to `u`: slot one when `u` is in
      slot two, slot two otherwise. For an edge that involves `u` this is
      `u`'s partner, so `u` and the result are the edge's two endpoints. */
  function OtherEndpoint(c: Contact, u: string): (v: string)
    ensures Involves(c, u) ==> multiset{c.userIdOne, c.userIdTwo} == multiset{u, v}
    ensures v == c.userIdOne || v == c.userIdTwo
  {
    if u == c.userIdTwo then c.userIdOne else c.userIdTwo
  }

  /** One reported id per edge, position by position. */
  function OtherEndpoints(cs: seq<Contact>, u: string): (ids: seq<string>)
    ensures |ids| == |cs|
    ensures forall i :: 0 <= i < |cs| ==> ids[i] == OtherEndpoint(cs[i], u)
  {
    if |cs| == 0 then [] else [OtherEndpoint(cs[0], u)] + OtherEndpoints(cs[1..], u)
  }

  /** The reference answer to the query: filter the collection to the window,
      then map every matching edge to its other endpoint. */
  function PrimaryContacts(cs: seq<Contact>, u: string, t: Time): seq<string>
  {
    OtherEndpoints(Select(cs, u, WindowStart(t), t), u)
  }

  /** The response body. The handler's result slice starts out nil and only
      an append makes it non-nil, so an empty result is encoded as `null`
      rather than as an empty array. */
  datatype JsonBody = Null | Array(ids: seq<string>)

  function Encode(usersArray: seq<string>): (body: JsonBody)
    ensures body.Null? <==> |usersArray| == 0
    ensures body.Array? ==> body.ids == usersArray
  {
    if |usersArray| == 0 then Null else Array(usersArray)
  }

  /** The handler: parse the infection time (a parse failure falls back to
      the zero time), compute the window, ask the store for the matching
      contacts and collect the other endpoint of each one, in cursor order. */
  method GetContacts(
    contacts: seq<Contact>,
    userId: string,
    infectionTimestamp: string,
    parse: string -> Option<Time>
  ) returns (usersArray: seq<string>)
    ensures usersArray == PrimaryContacts(contacts, userId, InfectionTime(parse(infectionTimestamp)))
    ensures parse(infectionTimestamp).None? ==> usersArray == PrimaryContacts(contacts, userId, ZeroTime)
    ensures forall id :: id in usersArray <==>
      exists c :: c in contacts
        && Matches(c, userId, WindowStart(InfectionTime(parse(infectionTimestamp))), InfectionTime(parse(infectionTimestamp)))
        && OtherEndpoint(c, userId) == id
  {
    var t := InfectionTime(parse(infectionTimestamp));
    var lo := WindowStart(t);
    var cur := Select(contacts, userId, lo, t);
    usersArray := [];
    var i := 0;
    while i < |cur|
      invariant 0 <= i <= |cur|
      invariant |usersArray| == i
      invariant forall k :: 0 <= k < i ==> usersArray[k] == OtherEndpoint(cur[k], userId)
    {
      var contact := cur[i];
      if userId == contact.userIdTwo {
        usersArray := usersArray + [contact.userIdOne];
      } else {
        usersArray := usersArray + [contact.userIdTwo];
      }
      i := i + 1;
    }
    PrimaryContactsMembership(contacts, userId, t);
  }

  /** The response is `null` exactly when no contact in the collection
      matches the query. */
  method GetContactsResponse(
    contacts: seq<Contact>,
    userId: string,
    infectionTimestamp: string,
    parse: string -> Option<Time>
  ) returns (body: JsonBody)
    ensures body.Null? <==>
      forall c :: c in contacts ==>
        !Matches(c, userId, WindowStart(InfectionTime(parse(infectionTimestamp))), InfectionTime(parse(infectionTimestamp)))
    ensures body.Array? ==> body.ids == PrimaryContacts(contacts, userId, InfectionTime(parse(infectionTimestamp)))
  {
    var usersArray := GetContacts(contacts, userId, infectionTimestamp, parse);
    body := Encode(usersArray);
    PrimaryContactsEmpty(contacts, userId, InfectionTime(parse(infectionTimestamp)));
  }

  // ---------------------------------------------------------------------
  // Order, multiplicity and the window
  // ---------------------------------------------------------------------

  /** The filter commutes with concatenation: matching contacts keep their
      relative order in the cursor. */
  lemma {:induction false} SelectAppend(a: seq<Contact>, b: seq<Contact>, u: string, lo: Time, hi: Time)
    ensures Select(a + b, u, lo, hi) == Select(a, u, lo, hi) + Select(b, u, lo, hi)
  {
    if |a| == 0 {
      assert a + b == b;
    } else {
      assert (a + b)[0] == a[0];
      assert (a + b)[1..] == a[1..] + b;
      SelectAppend(a[1..], b, u, lo, hi);
    }
  }

  /** The filter keeps every copy of a matching contact and no copy of any
      other contact. */
  lemma {:induction false} SelectMultiplicity(cs: seq<Contact>, u: string, lo: Time, hi: Time, c: Contact)
    ensures multiset(Select(cs, u, lo, hi))[c] == if Matches(c, u, lo, hi) then multiset(cs)[c] else 0
  {
    if |cs| != 0 {
      assert cs == [cs[0]] + cs[1..];
      SelectMultiplicity(cs[1..], u, lo, hi, c);
    }
  }

  lemma OtherEndpointsAppend(a: seq<Contact>, b: seq<Contact>, u: string)
    ensures OtherEndpoints(a + b, u) == OtherEndpoints(a, u) + OtherEndpoints(b, u)
  {}

  /** The answer for a concatenated collection is the answer for the first
      part followed by the answer for the second: output order follows input
      order. */
  lemma PrimaryContactsAppend(a: seq<Contact>, b: seq<Contact>, u: string, t: Time)
    ensures PrimaryContacts(a + b, u, t) == PrimaryContacts(a, u, t) + PrimaryContacts(b, u, t)
  {
    SelectAppend(a, b, u, WindowStart(t), t);
    OtherEndpointsAppend(Select(a, u, WindowStart(t), t), Select(b, u, WindowStart(t), t), u);
  }

  /** An id is reported exactly when some contact in the window involves `u`
      and has that id as its other endpoint. */
  lemma PrimaryContactsMembership(cs: seq<Contact>, u: string, t: Time)
    ensures forall id :: id in PrimaryContacts(cs, u, t) <==>
      exists c :: c in cs && Matches(c, u, WindowStart(t), t) && OtherEndpoint(c, u) == id
  {}

  /** The answer is empty exactly when no contact in the collection matches. */
  lemma PrimaryContactsEmpty(cs: seq<Contact>, u: string, t: Time)
    ensures |PrimaryContacts(cs, u, t)| == 0 <==> forall c :: c in cs ==> !Matches(c, u, WindowStart(t), t)
  {
    var sel := Select(cs, u, WindowStart(t), t);
    if |sel| != 0 {
      assert sel[0] in sel;
    }
  }

  /** A contact outside the query (wrong users, or a time strictly before the
      window start or strictly after the infection time) contributes nothing,
      wherever it sits in the collection. */
  lemma NonMatchingContactIgnored(a: seq<Contact>, c: Contact, b: seq<Contact>, u: string, t: Time)
    requires !Involves(c, u) || c.timeOfContact < t - FourteenDays || c.timeOfContact > t
    ensures PrimaryContacts(a + [c] + b, u, t) == PrimaryContacts(a + b, u, t)
  {
    assert [c][1..] == [];
    assert PrimaryContacts([c], u, t) == [];
    PrimaryContactsAppend(a + [c], b, u, t);
    PrimaryContactsAppend(a, [c], u, t);
    PrimaryContactsAppend(a, b, u, t);
  }

  /** A contact that involves `u` and lies in the window, including exactly
      on either bound, contributes its other endpoint at its own position. */
  lemma MatchingContactReported(a: seq<Contact>, c: Contact, b: seq<Contact>, u: string, t: Time)
    requires Involves(c, u)
    requires t - FourteenDays <= c.timeOfContact <= t
    ensures PrimaryContacts(a + [c] + b, u, t)
         == PrimaryContacts(a, u, t) + [OtherEndpoint(c, u)] + PrimaryContacts(b, u, t)
  {
    assert [c][1..] == [];
    assert PrimaryContacts([c], u, t) == [OtherEndpoint(c, u)];
    PrimaryContactsAppend(a + [c], b, u, t);
    PrimaryContactsAppend(a, [c], u, t);
  }

  /** The indices of the collection whose contact matches the query. */
  function MatchingIndices(cs: seq<Contact>, u: string, lo: Time, hi: Time): set<nat>
  {
    set i: nat | i < |cs| && Matches(cs[i], u, lo, hi)
  }

  /** The indices of the matching contacts whose other endpoint is `id`. */
  function EdgesTo(cs: seq<Contact>, u: string, lo: Time, hi: Time, id: string): set<nat>
  {
    set i: nat | i < |cs| && Matches(cs[i], u, lo, hi) && OtherEndpoint(cs[i], u) == id
  }

  lemma MatchingIndicesSnoc(cs: seq<Contact>, c: Contact, u: string, lo: Time, hi: Time)
    ensures MatchingIndices(cs + [c], u, lo, hi)
         == MatchingIndices(cs, u, lo, hi) + (if Matches(c, u, lo, hi) then {|cs| as nat} else {})
  {}

  lemma EdgesToSnoc(cs: seq<Contact>, c: Contact, u: string, lo: Time, hi: Time, id: string)
    ensures EdgesTo(cs + [c], u, lo, hi, id)
         == EdgesTo(cs, u, lo, hi, id) + (if Matches(c, u, lo, hi) && OtherEndpoint(c, u) == id then {|cs| as nat} else {})
  {}

  /** Exactly one id is reported per matching edge. */
  lemma {:induction false} PrimaryContactsLength(cs: seq<Contact>, u: string, t: Time)
    ensures |PrimaryContacts(cs, u, t)| == |MatchingIndices(cs, u, WindowStart(t), t)|
    decreases |cs|
  {
    var lo := WindowStart(t);
    if |cs| == 0 {
      assert MatchingIndices(cs, u, lo, t) == {};
    } else {
      var init, last := cs[..|cs| - 1], cs[|cs| - 1];
      assert cs == init + [last];
      PrimaryContactsLength(init, u, t);
      PrimaryContactsAppend(init, [last], u, t);
      assert [last][1..] == [];
      MatchingIndicesSnoc(init, last, u, lo, t);
      assert |init| !in MatchingIndices(init, u, lo, t);
    }
  }

  /** Duplicates are kept: an id occurs in the answer once for every matching
      edge that leads to it. */
  lemma {:induction false} PrimaryContactsMultiplicity(cs: seq<Contact>, u: string, t: Time, id: string)
    ensures multiset(PrimaryContacts(cs, u, t))[id] == |EdgesTo(cs, u, WindowStart(t), t, id)|
    decreases |cs|
  {
    var lo := WindowStart(t);
    if |cs| == 0 {
      assert EdgesTo(cs, u, lo, t, id) == {};
    } else {
      var init, last := cs[..|cs| - 1], cs[|cs| - 1];
      assert cs == init + [last];
      PrimaryContactsMultiplicity(init, u, t, id);
      PrimaryContactsAppend(init, [last], u, t);
      assert [last][1..] == [];
      EdgesToSnoc(init, last, u, lo, t, id);
      assert |init| !in EdgesTo(init, u, lo, t, id);
    }
  }

  /** Two edges through `u2` at the infection time itself report both
      partners, in collection order, whichever slot `u2` occupies. */
  lemma TwoEdgesThroughUser(t: Time)
    ensures PrimaryContacts([Contact("u1", "u2", t), Contact("u2", "u3", t)], "u2", t) == ["u1", "u3"]
  {
    var c1, c2 := Contact("u1", "u2", t), Contact("u2", "u3", t);
    MatchingContactReported([], c1, [c2], "u2", t);
    MatchingContactReported([], c2, [], "u2", t);
    assert [] + [c1] + [c2] == [c1, c2];
    assert [] + [c2] + [] == [c2];
  }
}
