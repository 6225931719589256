/** The nightly reconciliation of the membership roster with the mailing-list
    server: every current member is found among the list server's subscribers
    (by CRM contact id, else by email), put on the all-members list, and has
    their profile brought up to date; members not found are created; and
    subscribers of the all-members list whose email belongs to no member are
    removed from it in one request. */
module ListmonkSync {
  import opened Common

  /** The id of the all-members list on the list server. */
  const AllMembersList: int := 3

  /** The subscriber attribute that links a subscriber to a CRM contact. */
  const ContactKey: string := "civiCRMcontactID"

  /** A current member as the CRM returns one: contact id, primary email and display name. */
  datatype Member = Member(contactId: Value, email: string, displayName: string)

  /** One list a subscriber is on, with the subscription's status. */
  datatype Subscription = Subscription(listId: int, status: string)

  /** A subscriber as the list server returns one. */
  datatype Subscriber = Subscriber(id: int, email: string, name: string, status: string,
                                   attribs: map<string, Value>, lists: seq<Subscription>)

  /** The profile sent when a subscriber is created or replaced. */
  datatype Profile = Profile(email: string, name: string, status: string, lists: seq<int>, attribs: map<string, Value>)

  /** The writes the reconciliation sends to the list server. An `Update` is
      sent after the subscriber is read back: the profile it carries is
      `UpdatedProfile` of that re-read record; `link` is the contact id it
      also records, if any. */
  datatype Request =
    | AddToList(ids: seq<int>, listId: int, status: string)
    | Update(id: int, email: string, name: string, link: Option<Value>)
    | Create(profile: Profile)
    | RemoveFromList(ids: seq<int>, listId: int)

  // ---------------------------------------------------------------------------
  // Finding a member among the subscribers

  predicate ContactMatches(s: Subscriber, m: Member)
  {
    ContactKey in s.attribs && s.attribs[ContactKey] == m.contactId
  }

  predicate EmailMatches(s: Subscriber, m: Member)
  {
    s.email == m.email
  }

  /** A subscriber is the member's when either test holds; the contact-id test
      is the one that decides how it is treated. */
  predicate Matches(s: Subscriber, m: Member)
  {
    ContactMatches(s, m) || EmailMatches(s, m)
  }

  /** The first subscriber, in the list server's order, that passes either test. */
  function FirstMatch(subscribers: seq<Subscriber>, m: Member): (r: Option<nat>)
    ensures r.None? <==> forall k :: 0 <= k < |subscribers| ==> !Matches(subscribers[k], m)
    ensures r.Some? ==> r.value < |subscribers| && Matches(subscribers[r.value], m)
    ensures r.Some? ==> forall k :: 0 <= k < r.value ==> !Matches(subscribers[k], m)
    decreases |subscribers|
  {
    if subscribers == [] then None
    else if Matches(subscribers[0], m) then Some(0)
    else match FirstMatch(subscribers[1..], m)
      case None => None
      case Some(k) => Some(k + 1)
  }

  /** On the all-members list in any of the statuses the list server uses. */
  predicate OnList(e: Subscription)
  {
    e.listId == AllMembersList && e.status in {"unconfirmed", "confirmed", "unsubscribed"}
  }

  predicate Listed(s: Subscriber)
  {
    exists k :: 0 <= k < |s.lists| && OnList(s.lists[k])
  }

  // ---------------------------------------------------------------------------
  // What is sent for one member

  function AddRequest(s: Subscriber): seq<Request>
  {
    if Listed(s) then [] else [AddToList([s.id], AllMembersList, "unconfirmed")]
  }

  /** The profile a new member is created with. */
  function NewProfile(m: Member): Profile
  {
    Profile(m.email, m.displayName, "enabled", [AllMembersList], map[ContactKey := m.contactId])
  }

  /** The writes for one member, given the subscriber list read at the start. */
  function MemberRequests(subscribers: seq<Subscriber>, m: Member): seq<Request>
  {
    match FirstMatch(subscribers, m)
    case None => [Create(NewProfile(m))]
    case Some(k) =>
      var s := subscribers[k];
      if ContactMatches(s, m) then
        AddRequest(s) + (if s.name != m.displayName || s.email != m.email then [Update(s.id, m.email, m.displayName, None)] else [])
      else
        AddRequest(s) + [Update(s.id, m.email, m.displayName, Some(m.contactId))]
  }

  /** The writes for the members, in roster order. */
  function MembersRequests(subscribers: seq<Subscriber>, members: seq<Member>): seq<Request>
    decreases |members|
  {
    if members == [] then []
    else MembersRequests(subscribers, members[..|members| - 1]) + MemberRequests(subscribers, members[|members| - 1])
  }

  // ---------------------------------------------------------------------------
  // The profile an update replaces the subscriber's with

  function ListIds(lists: seq<Subscription>): (ids: seq<int>)
    ensures |ids| == |lists|
    ensures forall k :: 0 <= k < |lists| ==> ids[k] == lists[k].listId
  {
    if lists == [] then [] else [lists[0].listId] + ListIds(lists[1..])
  }

  /** The new email and name, with the status, list ids and attributes of the
      record read back just before, the contact id added when linking. */
  function UpdatedProfile(current: Subscriber, u: Request): (p: Profile)
    requires u.Update?
    ensures p.email == u.email && p.name == u.name && p.status == current.status
    ensures |p.lists| == |current.lists|
    ensures forall key :: key != ContactKey && key in current.attribs ==> key in p.attribs && p.attribs[key] == current.attribs[key]
    ensures u.link.Some? ==> ContactKey in p.attribs && p.attribs[ContactKey] == u.link.value
  {
    var attribs := match u.link
      case None => current.attribs
      case Some(contactId) => current.attribs[ContactKey := contactId];
    Profile(u.email, u.name, current.status, ListIds(current.lists), attribs)
  }

  /** An update keeps everything it re-read except email, name and, when
      linking, the contact id. */
  lemma UpdateKeepsTheRest(current: Subscriber, u: Request)
    requires u.Update?
    ensures var p := UpdatedProfile(current, u);
      && p.email == u.email && p.name == u.name
      && p.status == current.status
      && |p.lists| == |current.lists|
      && (forall k :: 0 <= k < |current.lists| ==> p.lists[k] == current.lists[k].listId)
      && (forall key :: key != ContactKey ==> (key in p.attribs <==> key in current.attribs))
      && (forall key :: key != ContactKey && key in current.attribs ==> p.attribs[key] == current.attribs[key])
      && (u.link.Some? ==> ContactKey in p.attribs && p.attribs[ContactKey] == u.link.value)
      && (u.link.None? ==> p.attribs == current.attribs)
  {
  }

  /** Builds the replacement profile from the re-read record as the script
      does: the list ids collected one by one, the contact id written into the
      attributes when linking. */
  method ReplacementProfile(current: Subscriber, u: Request) returns (p: Profile)
    requires u.Update?
    ensures p == UpdatedProfile(current, u)
  {
    var oldLists: seq<int> := [];
    for e := 0 to |current.lists|
      invariant oldLists == ListIds(current.lists[..e])
    {
      ListIdsAppend(current.lists[..e], [current.lists[e]]);
      assert current.lists[..e + 1] == current.lists[..e] + [current.lists[e]];
      oldLists := oldLists + [current.lists[e].listId];
    }
    assert current.lists[..|current.lists|] == current.lists;
    var attribs := current.attribs;
    if u.link.Some? {
      attribs := attribs[ContactKey := u.link.value];
    }
    p := Profile(u.email, u.name, current.status, oldLists, attribs);
  }

  lemma ListIdsAppend(a: seq<Subscription>, b: seq<Subscription>)
    ensures ListIds(a + b) == ListIds(a) + ListIds(b)
  {
    var l := ListIds(a + b);
    var r := ListIds(a) + ListIds(b);
    assert |l| == |r|;
    forall k | 0 <= k < |l| ensures l[k] == r[k] {
      if k < |a| {
        assert (a + b)[k] == a[k];
      } else {
        assert (a + b)[k] == b[k - |a|];
      }
    }
  }

  // ---------------------------------------------------------------------------
  // Removal from the all-members list

  predicate HasEmail(members: seq<Member>, email: string)
  {
    exists k :: 0 <= k < |members| && members[k].email == email
  }

  /** Ids of the list's subscribers whose email belongs to no member, in list order. */
  function Removals(listSubscribers: seq<Subscriber>, members: seq<Member>): seq<int>
    decreases |listSubscribers|
  {
    if listSubscribers == [] then []
    else
      var last := listSubscribers[|listSubscribers| - 1];
      Removals(listSubscribers[..|listSubscribers| - 1], members)
        + (if HasEmail(members, last.email) then [] else [last.id])
  }

  /** One bulk removal, sent only when there is someone to remove. */
  function RemovalRequests(listSubscribers: seq<Subscriber>, members: seq<Member>): seq<Request>
  {
    var ids := Removals(listSubscribers, members);
    if |ids| > 0 then [RemoveFromList(ids, AllMembersList)] else []
  }

  /** Everything the reconciliation sends: `subscribers` is the full
      subscriber list read at the start, `listSubscribers` the all-members
      list read after the member writes. */
  function Plan(members: seq<Member>, subscribers: seq<Subscriber>, listSubscribers: seq<Subscriber>): (r: seq<Request>)
    ensures forall k :: 0 <= k < |r| && r[k].RemoveFromList? ==>
      k == |r| - 1 && r[k].listId == AllMembersList && r[k].ids == Removals(listSubscribers, members) != []
  {
    MembersRequestsNoRemoval(subscribers, members);
    MembersRequests(subscribers, members) + RemovalRequests(listSubscribers, members)
  }

  /** The member writes add, update and create; none removes. */
  lemma {:induction false} MembersRequestsNoRemoval(subscribers: seq<Subscriber>, members: seq<Member>)
    ensures forall k :: 0 <= k < |MembersRequests(subscribers, members)| ==> !MembersRequests(subscribers, members)[k].RemoveFromList?
    decreases |members|
  {
    if members != [] {
      MembersRequestsNoRemoval(subscribers, members[..|members| - 1]);
    }
  }

  // ---------------------------------------------------------------------------
  // The reconciliation as the script runs it

  method AlreadyListed(s: Subscriber) returns (listed: bool)
    ensures listed == Listed(s)
  {
    listed := false;
    for e := 0 to |s.lists|
      invariant listed <==> exists k :: 0 <= k < e && OnList(s.lists[k])
    {
      if s.lists[e].listId == AllMembersList && s.lists[e].status in {"unconfirmed", "confirmed", "unsubscribed"} {
        listed := true;
      }
    }
  }

  /** The writes for one member: scans the subscribers and stops at the first
      that passes the contact-id test or, failing that, the email test. */
  method ReconcileMember(subscribers: seq<Subscriber>, m: Member) returns (requests: seq<Request>)
    ensures requests == MemberRequests(subscribers, m)
  {
    requests := [];
    for j := 0 to |subscribers|
      invariant requests == []
      invariant forall k :: 0 <= k < j ==> !Matches(subscribers[k], m)
    {
      var s := subscribers[j];
      if ContactKey in s.attribs && s.attribs[ContactKey] == m.contactId {
        var listed := AlreadyListed(s);
        if !listed {
          requests := requests + [AddToList([s.id], AllMembersList, "unconfirmed")];
        }
        if s.name != m.displayName || s.email != m.email {
          requests := requests + [Update(s.id, m.email, m.displayName, None)];
        }
        assert FirstMatch(subscribers, m) == Some(j);
        return;
      } else if s.email == m.email {
        var listed := AlreadyListed(s);
        if !listed {
          requests := requests + [AddToList([s.id], AllMembersList, "unconfirmed")];
        }
        requests := requests + [Update(s.id, m.email, m.displayName, Some(m.contactId))];
        assert FirstMatch(subscribers, m) == Some(j);
        return;
      }
    }
    requests := [Create(NewProfile(m))];
  }

  /** The whole reconciliation. */
  method Reconcile(members: seq<Member>, subscribers: seq<Subscriber>, listSubscribers: seq<Subscriber>)
    returns (requests: seq<Request>)
    ensures requests == Plan(members, subscribers, listSubscribers)
  {
    requests := [];
    for i := 0 to |members|
      invariant requests == MembersRequests(subscribers, members[..i])
    {
      var more := ReconcileMember(subscribers, members[i]);
      assert members[..i + 1][..i] == members[..i];
      requests := requests + more;
    }
    assert members[..|members|] == members;
    var removeIds := StaleSubscribers(listSubscribers, members);
    if |removeIds| > 0 {
      requests := requests + [RemoveFromList(removeIds, AllMembersList)];
    }
  }

  /** The removal pass: the ids of the list subscribers whose email no member has. */
  method StaleSubscribers(listSubscribers: seq<Subscriber>, members: seq<Member>) returns (removeIds: seq<int>)
    ensures removeIds == Removals(listSubscribers, members)
  {
    removeIds := [];
    for k := 0 to |listSubscribers|
      invariant removeIds == Removals(listSubscribers[..k], members)
    {
      var s := listSubscribers[k];
      var validMember := IsMember(members, s.email);
      assert listSubscribers[..k + 1][..k] == listSubscribers[..k];
      if !validMember {
        removeIds := removeIds + [s.id];
      }
    }
    assert listSubscribers[..|listSubscribers|] == listSubscribers;
  }

  /** The scan over the roster for a subscriber's email, stopping at the first hit. */
  method IsMember(members: seq<Member>, email: string) returns (validMember: bool)
    ensures validMember == HasEmail(members, email)
  {
    validMember := false;
    for x := 0 to |members|
      invariant validMember <==> exists y :: 0 <= y < x && members[y].email == email
    {
      if email == members[x].email {
        validMember := true;
        break;
      }
    }
  }

  // ---------------------------------------------------------------------------
  // Properties

  /** A subscriber who passes the contact-id test is treated as found by
      contact id even when its email also matches, and an update is sent
      exactly when its name or email differs from the member's. */
  lemma ContactMatchUpdatesOnlyOnChange(subscribers: seq<Subscriber>, m: Member, k: nat)
    requires FirstMatch(subscribers, m) == Some(k) && ContactMatches(subscribers[k], m)
    ensures var s := subscribers[k];
      (exists r :: r in MemberRequests(subscribers, m) && r.Update?)
        <==> s.name != m.displayName || s.email != m.email
    ensures forall r :: r in MemberRequests(subscribers, m) && r.Update? ==> r.link == None
  {
    var s := subscribers[k];
    var update := Update(s.id, m.email, m.displayName, None);
    var changed := s.name != m.displayName || s.email != m.email;
    assert MemberRequests(subscribers, m) == AddRequest(s) + (if changed then [update] else []);
    if changed {
      assert update in MemberRequests(subscribers, m);
    }
  }

  /** A subscriber found by email alone is always updated, and the update
      records the member's contact id. */
  lemma EmailMatchLinksContact(subscribers: seq<Subscriber>, m: Member, k: nat)
    requires FirstMatch(subscribers, m) == Some(k) && !ContactMatches(subscribers[k], m)
    ensures EmailMatches(subscribers[k], m)
    ensures Update(subscribers[k].id, m.email, m.displayName, Some(m.contactId)) in MemberRequests(subscribers, m)
    ensures forall current :: var p := UpdatedProfile(current, Update(subscribers[k].id, m.email, m.displayName, Some(m.contactId)));
      ContactKey in p.attribs && p.attribs[ContactKey] == m.contactId
  {
  }

  /** A found subscriber is added to the all-members list exactly when it is
      not on it yet; nothing is created for it. */
  lemma AddedIffNotListed(subscribers: seq<Subscriber>, m: Member, k: nat)
    requires FirstMatch(subscribers, m) == Some(k)
    ensures AddToList([subscribers[k].id], AllMembersList, "unconfirmed") in MemberRequests(subscribers, m)
      <==> !Listed(subscribers[k])
    ensures forall r :: r in MemberRequests(subscribers, m) ==> !r.Create? && !r.RemoveFromList?
    ensures forall r :: r in MemberRequests(subscribers, m) && (r.AddToList? || r.Update?) ==>
      (r.AddToList? ==> r.ids == [subscribers[k].id]) && (r.Update? ==> r.id == subscribers[k].id)
  {
  }

  /** A member no subscriber matches gets exactly one create: on the
      all-members list, enabled, linked to the contact. */
  lemma UnmatchedCreatesOne(subscribers: seq<Subscriber>, m: Member)
    requires forall k :: 0 <= k < |subscribers| ==> !Matches(subscribers[k], m)
    ensures MemberRequests(subscribers, m) == [Create(NewProfile(m))]
    ensures NewProfile(m).lists == [AllMembersList] && NewProfile(m).status == "enabled"
    ensures NewProfile(m).attribs[ContactKey] == m.contactId
  {
  }

  /** The profiles created, in the order they are sent. */
  function Created(requests: seq<Request>): seq<Profile>
    decreases |requests|
  {
    if requests == [] then []
    else
      var last := requests[|requests| - 1];
      Created(requests[..|requests| - 1]) + (if last.Create? then [last.profile] else [])
  }

  lemma {:induction false} CreatedAppend(a: seq<Request>, b: seq<Request>)
    ensures Created(a + b) == Created(a) + Created(b)
    decreases |b|
  {
    if b == [] {
      assert a + b == a;
    } else {
      assert (a + b)[..|a + b| - 1] == a + b[..|b| - 1];
      CreatedAppend(a, b[..|b| - 1]);
    }
  }

  /** The members the subscriber list read at the start has no match for. */
  function Unmatched(subscribers: seq<Subscriber>, members: seq<Member>): seq<Member>
    decreases |members|
  {
    if members == [] then []
    else
      var last := members[|members| - 1];
      Unmatched(subscribers, members[..|members| - 1]) + (if FirstMatch(subscribers, last).None? then [last] else [])
  }

  function NewProfiles(members: seq<Member>): (ps: seq<Profile>)
    ensures |ps| == |members|
    ensures forall k :: 0 <= k < |members| ==> ps[k] == NewProfile(members[k])
  {
    if members == [] then [] else [NewProfile(members[0])] + NewProfiles(members[1..])
  }

  /** One subscriber is created per unmatched member, in roster order. The
      subscriber list is not read again between members, so two unmatched
      members sharing an email are both created. */
  lemma {:induction false} CreatesPerUnmatchedMember(subscribers: seq<Subscriber>, members: seq<Member>)
    ensures Created(MembersRequests(subscribers, members)) == NewProfiles(Unmatched(subscribers, members))
    decreases |members|
  {
    if members != [] {
      var init := members[..|members| - 1];
      var m := members[|members| - 1];
      var before := MembersRequests(subscribers, init);
      var mine := MemberRequests(subscribers, m);
      var extra := if FirstMatch(subscribers, m).None? then [m] else [];
      assert MembersRequests(subscribers, members) == before + mine;
      assert Unmatched(subscribers, members) == Unmatched(subscribers, init) + extra;
      CreatesPerUnmatchedMember(subscribers, init);
      CreatedAppend(before, mine);
      MemberCreates(subscribers, m);
      NewProfilesAppend(Unmatched(subscribers, init), extra);
    }
  }

  /** The profiles created for one member: one exactly when nothing matches. */
  lemma MemberCreates(subscribers: seq<Subscriber>, m: Member)
    ensures Created(MemberRequests(subscribers, m))
      == if FirstMatch(subscribers, m).None? then [NewProfile(m)] else []
  {
    var mine := MemberRequests(subscribers, m);
    if FirstMatch(subscribers, m).None? {
      assert mine == [Create(NewProfile(m))];
      assert mine[..0] == [];
    } else {
      CreatedNone(mine);
    }
  }

  lemma {:induction false} CreatedNone(requests: seq<Request>)
    requires forall r :: r in requests ==> !r.Create?
    ensures Created(requests) == []
    decreases |requests|
  {
    if requests != [] {
      assert forall r :: r in requests[..|requests| - 1] ==> r in requests;
      CreatedNone(requests[..|requests| - 1]);
    }
  }

  lemma NewProfilesAppend(a: seq<Member>, b: seq<Member>)
    ensures NewProfiles(a + b) == NewProfiles(a) + NewProfiles(b)
  {
    var l := NewProfiles(a + b);
    var r := NewProfiles(a) + NewProfiles(b);
    forall k | 0 <= k < |l| ensures l[k] == r[k] {
      if k < |a| {
        assert (a + b)[k] == a[k];
      } else {
        assert (a + b)[k] == b[k - |a|];
      }
    }
  }

  /** Two members with the same email whom no subscriber matches are both created. */
  lemma DuplicateEmailsCreatedTwice(subscribers: seq<Subscriber>, m1: Member, m2: Member)
    requires m1.email == m2.email
    requires forall k :: 0 <= k < |subscribers| ==> !Matches(subscribers[k], m1) && !Matches(subscribers[k], m2)
    ensures Created(MembersRequests(subscribers, [m1, m2])) == [NewProfile(m1), NewProfile(m2)]
  {
    UnmatchedCreatesOne(subscribers, m1);
    UnmatchedCreatesOne(subscribers, m2);
    MembersRequestsPair(subscribers, m1, m2);
    CreatedPair(NewProfile(m1), NewProfile(m2));
  }

  lemma MembersRequestsPair(subscribers: seq<Subscriber>, m1: Member, m2: Member)
    ensures MembersRequests(subscribers, [m1, m2]) == MemberRequests(subscribers, m1) + MemberRequests(subscribers, m2)
  {
    var pair := [m1, m2];
    assert pair[..1] == [m1];
    assert [m1][..0] == [];
    assert MembersRequests(subscribers, [m1]) == [] + MemberRequests(subscribers, m1);
    assert MembersRequests(subscribers, pair) == MembersRequests(subscribers, [m1]) + MemberRequests(subscribers, m2);
  }

  lemma CreatedPair(a: Profile, b: Profile)
    ensures Created([Create(a)] + [Create(b)]) == [a, b]
  {
    var reqs := [Create(a)] + [Create(b)];
    assert reqs[..1] == [Create(a)];
    assert reqs[..1][..0] == [];
    assert Created(reqs[..1]) == [] + [a];
    assert Created(reqs) == Created(reqs[..1]) + [b];
  }

  /** A list subscriber is removed exactly when no member has its email. */
  lemma {:induction false} RemovalsExact(listSubscribers: seq<Subscriber>, members: seq<Member>, id: int)
    ensures id in Removals(listSubscribers, members)
      <==> exists k :: 0 <= k < |listSubscribers| && listSubscribers[k].id == id && !HasEmail(members, listSubscribers[k].email)
    decreases |listSubscribers|
  {
    if listSubscribers != [] {
      var init := listSubscribers[..|listSubscribers| - 1];
      RemovalsExact(init, members, id);
      if exists k :: 0 <= k < |init| && init[k].id == id && !HasEmail(members, init[k].email) {
        var k :| 0 <= k < |init| && init[k].id == id && !HasEmail(members, init[k].email);
        assert listSubscribers[k] == init[k];
      }
      if exists k :: 0 <= k < |listSubscribers| && listSubscribers[k].id == id && !HasEmail(members, listSubscribers[k].email) {
        var k :| 0 <= k < |listSubscribers| && listSubscribers[k].id == id && !HasEmail(members, listSubscribers[k].email);
        if k < |init| {
          assert init[k] == listSubscribers[k];
        }
      }
    }
  }

  /** The bulk removal is sent exactly when some list subscriber's email
      belongs to no member, and it names only the all-members list. */
  lemma RemovalSentIffSomeoneLeft(listSubscribers: seq<Subscriber>, members: seq<Member>)
    ensures |RemovalRequests(listSubscribers, members)| == 1
      <==> exists k :: 0 <= k < |listSubscribers| && !HasEmail(members, listSubscribers[k].email)
    ensures forall r :: r in RemovalRequests(listSubscribers, members) ==> r.RemoveFromList? && r.listId == AllMembersList
  {
    var ids := Removals(listSubscribers, members);
    if exists k :: 0 <= k < |listSubscribers| && !HasEmail(members, listSubscribers[k].email) {
      var k :| 0 <= k < |listSubscribers| && !HasEmail(members, listSubscribers[k].email);
      RemovalsExact(listSubscribers, members, listSubscribers[k].id);
    }
    if |ids| > 0 {
      assert ids[0] in ids;
      RemovalsExact(listSubscribers, members, ids[0]);
    }
  }
}
