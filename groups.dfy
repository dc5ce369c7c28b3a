/**
 * Groups of members by e-mail address: the submit form that saves a new
 * group, and the inline field that adds one member to a saved group.
 */
module Groups {
  import opened Wrappers
  import opened Text

  const IdPrefix := "group-"

  datatype Group = Group(id: string, name: string, members: seq<string>)

  // ----- validateEmails -----

  /** `[^\s@]`. */
  predicate Plain(c: char) {
    !IsSpace(c) && c != '@'
  }

  predicate AllPlain(s: string) {
    forall i :: 0 <= i < |s| ==> Plain(s[i])
  }

  /**
   * `^[^\s@]+@[^\s@]+\.[^\s@]+$` read position by position: a non-empty
   * local part, `@`, a non-empty run, a dot and a non-empty run, with no
   * white space and no other `@` anywhere.
   */
  ghost predicate MatchesEmailPattern(e: string) {
    exists at, dot :: 0 < at && at + 1 < dot && dot + 1 < |e| && e[at] == '@' && e[dot] == '.'
      && AllPlain(e[..at]) && AllPlain(e[at + 1..dot]) && AllPlain(e[dot + 1..])
  }

  /** The same test read off the first `@`: a dot must sit strictly inside what follows it. */
  predicate ValidEmail(e: string) {
    var at := IndexOf(e, '@');
    && 0 < at < |e|
    && AllPlain(e[..at])
    && var domain := e[at + 1..];
       && |domain| >= 3 && AllPlain(domain)
       && '.' in domain[1..|domain| - 1]
  }

  /** An address that passes the test matches the pattern. */
  lemma ValidEmailMatches(e: string)
    requires ValidEmail(e)
    ensures MatchesEmailPattern(e)
  {
    var at := IndexOf(e, '@');
    var domain := e[at + 1..];
    var inner := domain[1..|domain| - 1];
    var k :| 0 <= k < |inner| && inner[k] == '.';
    var dot := at + 2 + k;
    assert e[dot] == '.' by {
      assert e[dot] == inner[k];
    }
    assert AllPlain(e[at + 1..dot]) by {
      assert e[at + 1..dot] == domain[..k + 1];
    }
    assert AllPlain(e[dot + 1..]) by {
      assert e[dot + 1..] == domain[k + 2..];
    }
    assert 0 < at && at + 1 < dot && dot + 1 < |e| && e[at] == '@' && AllPlain(e[..at]);
  }

  /** A text that matches the pattern passes the test. */
  lemma MatchingEmailValid(e: string, at: nat, dot: nat)
    requires 0 < at && at + 1 < dot && dot + 1 < |e| && e[at] == '@' && e[dot] == '.'
    requires AllPlain(e[..at]) && AllPlain(e[at + 1..dot]) && AllPlain(e[dot + 1..])
    ensures ValidEmail(e)
  {
    assert forall i :: 0 <= i < at ==> e[i] == e[..at][i];
    IndexOfFirst(e, '@', at);
    var domain := e[at + 1..];
    assert forall i :: 0 <= i < dot - at - 1 ==> domain[i] == e[at + 1..dot][i];
    assert forall i :: dot - at <= i < |domain| ==> domain[i] == e[dot + 1..][i - (dot - at)];
    assert domain[dot - at - 1] == '.';
    assert domain[1..|domain| - 1][dot - at - 2] == '.';
  }

  /** The test and the pattern agree on every text. */
  lemma ValidEmailMatchesPattern(e: string)
    ensures ValidEmail(e) <==> MatchesEmailPattern(e)
  {
    if ValidEmail(e) {
      ValidEmailMatches(e);
    }
    if MatchesEmailPattern(e) {
      var at, dot :| 0 < at && at + 1 < dot && dot + 1 < |e| && e[at] == '@' && e[dot] == '.'
        && AllPlain(e[..at]) && AllPlain(e[at + 1..dot]) && AllPlain(e[dot + 1..]);
      MatchingEmailValid(e, at, dot);
    }
  }

  /** `validateEmails`: every address passes; an empty list passes. */
  predicate ValidateEmails(emails: seq<string>) {
    forall i :: 0 <= i < |emails| ==> ValidEmail(emails[i])
  }

  // ----- member parsing -----

  /** Every piece is non-empty and has nothing to trim. */
  predicate TrimmedPieces(ps: seq<string>) {
    forall i :: 0 <= i < |ps| ==> ps[i] != [] && Trim(ps[i]) == ps[i]
  }

  /** Every piece is blank. */
  predicate AllBlank(ps: seq<string>) {
    forall i :: 0 <= i < |ps| ==> IsBlank(ps[i])
  }

  /** The pieces are all blank when the first is and the rest are. */
  lemma AllBlankCons(ps: seq<string>)
    requires ps != []
    ensures AllBlank(ps) <==> IsBlank(ps[0]) && AllBlank(ps[1..])
  {
    assert forall i :: 1 <= i < |ps| ==> ps[i] == ps[1..][i - 1];
  }

  /** A trimmed non-empty piece in front of trimmed pieces. */
  lemma TrimmedPiecesCons(p: string, rest: seq<string>)
    requires p != [] && Trim(p) == p && TrimmedPieces(rest)
    ensures TrimmedPieces([p] + rest)
  {
    var s := [p] + rest;
    forall i | 0 <= i < |s| ensures s[i] != [] && Trim(s[i]) == s[i] {
      if i == 0 {
        assert s[i] == p;
      } else {
        assert s[i] == rest[i - 1];
      }
    }
  }

  /** The trimmed pieces that are not empty, in order. */
  function NonEmptyTrimmed(parts: seq<string>): (r: seq<string>)
    ensures |r| <= |parts|
    ensures TrimmedPieces(r)
    ensures AllBlank(parts) <==> r == []
  {
    if parts == [] then []
    else
      var t := Trim(parts[0]);
      var rest := NonEmptyTrimmed(parts[1..]);
      AllBlankCons(parts);
      if t == [] then rest
      else
        TrimKeeps(t);
        TrimmedPiecesCons(t, rest);
        [t] + rest
  }

  /** One piece gives its trimmed text, or nothing when it is blank. */
  lemma NonEmptyTrimmedOne(p: string)
    ensures NonEmptyTrimmed([p]) == if IsBlank(p) then [] else [Trim(p)]
  {
    assert [p][1..] == [];
  }

  /** The pieces of two lists are those of the first followed by those of the second. */
  lemma {:induction false} NonEmptyTrimmedConcat(a: seq<string>, b: seq<string>)
    ensures NonEmptyTrimmed(a + b) == NonEmptyTrimmed(a) + NonEmptyTrimmed(b)
  {
    if a == [] {
      assert a + b == b;
    } else {
      assert (a + b)[0] == a[0];
      assert (a + b)[1..] == a[1..] + b;
      NonEmptyTrimmedConcat(a[1..], b);
    }
  }

  /** A first piece with nothing to trim is kept in front of the pieces after it. */
  lemma NonEmptyTrimmedKeepsFirst(parts: seq<string>)
    requires parts != [] && parts[0] != [] && Trim(parts[0]) == parts[0]
    ensures NonEmptyTrimmed(parts) == [parts[0]] + NonEmptyTrimmed(parts[1..])
  {
  }

  /** A non-empty sequence is its first element followed by the rest. */
  lemma FirstAndRest<T>(s: seq<T>)
    requires s != []
    ensures [s[0]] + s[1..] == s
  {
  }

  /** The pieces after the first of trimmed pieces are trimmed too. */
  lemma TrimmedPiecesTail(ps: seq<string>)
    requires ps != [] && TrimmedPieces(ps)
    ensures TrimmedPieces(ps[1..]) && ps[0] != [] && Trim(ps[0]) == ps[0]
  {
    var rest := ps[1..];
    forall i | 0 <= i < |rest| ensures rest[i] != [] && Trim(rest[i]) == rest[i] {
      assert rest[i] == ps[i + 1];
    }
  }

  /** Pieces that are already trimmed and not empty are all kept, in order. */
  lemma {:induction false} NonEmptyTrimmedKeeps(parts: seq<string>)
    requires TrimmedPieces(parts)
    ensures NonEmptyTrimmed(parts) == parts
  {
    if parts != [] {
      TrimmedPiecesTail(parts);
      NonEmptyTrimmedKeeps(parts[1..]);
      NonEmptyTrimmedKeepsFirst(parts);
      FirstAndRest(parts);
    }
  }

  /** The members field: split on commas, each piece trimmed, empty pieces dropped. */
  function ParseMembers(raw: string): (members: seq<string>)
    ensures TrimmedPieces(members)
  {
    NonEmptyTrimmed(Split(raw, {','}))
  }

  /** Members written out joined by commas are read back as the same list; an empty field is no member. */
  lemma ParseMembersOfJoin(members: seq<string>)
    requires |members| >= 1
    requires TrimmedPieces(members)
    requires forall k, i :: 0 <= k < |members| && 0 <= i < |members[k]| ==> members[k][i] != ','
    ensures ParseMembers(Join(members, ',')) == members
    ensures ParseMembers("") == []
  {
    SplitJoin(members, ',');
    NonEmptyTrimmedKeeps(members);
    NonEmptyTrimmedOne("");
  }

  /** A single address with no comma, however it is padded, is read as that one member. */
  lemma ParseOneMember(pad1: string, email: string, pad2: string)
    requires IsBlank(pad1) && IsBlank(pad2)
    requires email != [] && !IsSpace(email[0]) && !IsSpace(email[|email| - 1])
    requires forall i :: 0 <= i < |pad1 + email + pad2| ==> (pad1 + email + pad2)[i] != ','
    ensures ParseMembers(pad1 + email + pad2) == [email]
  {
    SplitNoSeparator(pad1 + email + pad2, {','});
    TrimPadded(pad1, email, pad2);
  }

  // ----- the stored list -----

  /** `groups.findIndex(g => g.id === id)`. */
  function FindIndex(groups: seq<Group>, id: string): (r: Option<nat>)
    ensures r.Some? ==>
      (r.value < |groups| && groups[r.value].id == id && forall j :: 0 <= j < r.value ==> groups[j].id != id)
    ensures r.None? ==> forall j :: 0 <= j < |groups| ==> groups[j].id != id
  {
    if groups == [] then None
    else if groups[0].id == id then Some(0)
    else
      match FindIndex(groups[1..], id)
      case None => None
      case Some(k) => Some(k + 1)
  }

  /**
   * `updateGroup`: the first group with the id is replaced by what the
   * updater makes of it; an unknown id, or an updater that declines, changes
   * nothing.
   */
  function GroupUpdated(groups: seq<Group>, id: string, updater: Group -> Option<Group>): (r: seq<Group>)
    ensures |r| == |groups|
    ensures FindIndex(groups, id).None? ==> r == groups
    ensures FindIndex(groups, id).Some? ==>
      var i := FindIndex(groups, id).value;
      && (updater(groups[i]).None? ==> r == groups)
      && (updater(groups[i]).Some? ==> r[i] == updater(groups[i]).value)
      && forall j :: 0 <= j < |groups| && j != i ==> r[j] == groups[j]
  {
    match FindIndex(groups, id)
    case None => groups
    case Some(i) =>
      match updater(groups[i])
      case None => groups
      case Some(g) => groups[i := g]
  }

  /** The add-member updater: declines when the address is already a member, else appends it. */
  function AddMemberUpdater(email: string): Group -> Option<Group> {
    (current: Group) =>
      if email in current.members then None
      else Some(current.(members := current.members + [email]))
  }

  /** Adding a member keeps every earlier member in order and adds the address once, at the end. */
  lemma AddMemberEffect(current: Group, email: string)
    ensures email in current.members ==> AddMemberUpdater(email)(current).None?
    ensures email !in current.members ==>
      && AddMemberUpdater(email)(current).Some?
      && var g := AddMemberUpdater(email)(current).value;
         && g.id == current.id && g.name == current.name
         && g.members[..|current.members|] == current.members
         && g.members[|current.members|..] == [email]
  {
  }

  /** What a saved group is meant to be: a trimmed name and at least one member, all of them valid. */
  predicate WellFormedGroup(g: Group) {
    g.name != [] && Trim(g.name) == g.name && |g.members| > 0 && ValidateEmails(g.members)
  }

  predicate WellFormed(groups: seq<Group>) {
    forall i :: 0 <= i < |groups| ==> WellFormedGroup(groups[i])
  }

  /** How the submit form ended. */
  datatype SubmitOutcome = MissingName | MissingMembers | Saved

  /** The id of a group saved at `now` (milliseconds). */
  function GroupId(now: int): string {
    IdPrefix + IntToString(now)
  }

  /**
   * `handleSubmit`: a blank name, no members or an invalid member are
   * refused and nothing is saved; otherwise exactly one group is appended.
   */
  function Submitted(groups: seq<Group>, nameRaw: string, membersRaw: string, now: int)
    : (r: (seq<Group>, SubmitOutcome))
    ensures r.1 == MissingName <==> IsBlank(nameRaw)
    ensures r.1 == MissingMembers <==>
      !IsBlank(nameRaw) && (ParseMembers(membersRaw) == [] || !ValidateEmails(ParseMembers(membersRaw)))
    ensures r.1 != Saved ==> r.0 == groups
    ensures r.1 == Saved ==>
      && r.0 == groups + [Group(GroupId(now), Trim(nameRaw), ParseMembers(membersRaw))]
      && WellFormedGroup(r.0[|groups|])
  {
    var name := Trim(nameRaw);
    var members := ParseMembers(membersRaw);
    TrimKeeps(name);
    if name == [] then (groups, MissingName)
    else if members == [] || !ValidateEmails(members) then (groups, MissingMembers)
    else (groups + [Group(GroupId(now), name, members)], Saved)
  }

  /** How the add-member button ended. */
  datatype AddOutcome = EmptyEmail | InvalidEmail | Added

  /**
   * The add-member click: a blank or invalid address is refused; otherwise
   * the group is updated (an address already there is not added twice) and
   * the click reports success either way.
   */
  function MemberAdded(groups: seq<Group>, id: string, emailRaw: string): (r: (seq<Group>, AddOutcome))
    ensures r.1 == EmptyEmail <==> IsBlank(emailRaw)
    ensures r.1 == InvalidEmail <==> !IsBlank(emailRaw) && !ValidEmail(Trim(emailRaw))
    ensures r.1 != Added ==> r.0 == groups
    ensures r.1 == Added ==> r.0 == GroupUpdated(groups, id, AddMemberUpdater(Trim(emailRaw)))
  {
    var email := Trim(emailRaw);
    assert ValidateEmails([email]) <==> ValidEmail(email) by {
      assert [email][0] == email;
    }
    if email == [] then (groups, EmptyEmail)
    else if !ValidateEmails([email]) then (groups, InvalidEmail)
    else (GroupUpdated(groups, id, AddMemberUpdater(email)), Added)
  }

  /** Saving a group keeps every stored group well formed. */
  lemma SubmitKeepsWellFormed(groups: seq<Group>, nameRaw: string, membersRaw: string, now: int)
    requires WellFormed(groups)
    ensures WellFormed(Submitted(groups, nameRaw, membersRaw, now).0)
  {
    var (saved, outcome) := Submitted(groups, nameRaw, membersRaw, now);
    if outcome == Saved {
      assert forall k :: 0 <= k < |groups| ==> saved[k] == groups[k];
    }
  }

  /** Adding a member keeps every stored group well formed. */
  lemma AddMemberKeepsWellFormed(groups: seq<Group>, id: string, emailRaw: string)
    requires WellFormed(groups)
    ensures WellFormed(MemberAdded(groups, id, emailRaw).0)
  {
    var (after, outcome) := MemberAdded(groups, id, emailRaw);
    var email := Trim(emailRaw);
    if outcome == Added && FindIndex(groups, id).Some? {
      var i := FindIndex(groups, id).value;
      if email !in groups[i].members {
        var g := AddMemberUpdater(email)(groups[i]).value;
        assert g.members == groups[i].members + [email];
        assert forall k :: 0 <= k < |groups[i].members| ==> g.members[k] == groups[i].members[k];
        assert WellFormedGroup(after[i]);
      }
    }
  }

  /** The stored list of groups. */
  class GroupStore {
    var groups: seq<Group>

    /** An empty store. */
    constructor ()
      ensures groups == []
    {
      groups := [];
    }

    /** `updateGroup`: find the first group with the id, replace it in place if the updater yields one. */
    method UpdateGroup(id: string, updater: Group -> Option<Group>)
      modifies this
      ensures groups == GroupUpdated(old(groups), id, updater)
    {
      var index := -1;
      var i := 0;
      while i < |groups|
        invariant 0 <= i <= |groups|
        invariant forall j :: 0 <= j < i ==> groups[j].id != id
        invariant index == -1
      {
        if groups[i].id == id {
          index := i;
          break;
        }
        i := i + 1;
      }
      if index == -1 {
        return;
      }
      var updated := updater(groups[index]);
      if updated.Some? {
        groups := groups[index := updated.value];
      }
    }

    /** The add-member button of a saved group. */
    method AddMember(id: string, emailRaw: string) returns (outcome: AddOutcome)
      modifies this
      ensures (groups, outcome) == MemberAdded(old(groups), id, emailRaw)
    {
      var email := Trim(emailRaw);
      if email == [] {
        return EmptyEmail;
      }
      if !ValidateEmails([email]) {
        return InvalidEmail;
      }
      UpdateGroup(id, AddMemberUpdater(email));
      outcome := Added;
    }

    /** `handleSubmit`, with the clock reading `now` for the id. */
    method Submit(nameRaw: string, membersRaw: string, now: int) returns (outcome: SubmitOutcome)
      modifies this
      ensures (groups, outcome) == Submitted(old(groups), nameRaw, membersRaw, now)
    {
      var name := Trim(nameRaw);
      var members := ParseMembers(membersRaw);
      if name == [] {
        return MissingName;
      }
      if members == [] || !ValidateEmails(members) {
        return MissingMembers;
      }
      groups := groups + [Group(GroupId(now), name, members)];
      outcome := Saved;
    }
  }
}
