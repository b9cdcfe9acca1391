/** Finding or creating the user behind an OAuth login. */
module Identity {
  import opened Common

  type UserId = nat

  datatype Provider = Google | Microsoft

  /** A subject as one provider names it. */
  datatype Subject = Subject(provider: Provider, id: string)

  /** `subjectId` is absent for seeded users that never logged in. */
  datatype User = User(provider: Provider, subjectId: Option<string>, email: string,
                       curator: bool, disabled: bool, lastLogin: int)

  datatype Outcome = LoggedIn(user: UserId) | AccountDisabled | EmailTaken

  predicate Bound(u: User, s: Subject) { u.provider == s.provider && u.subjectId == Some(s.id) }

  function BoundTo(users: map<UserId, User>, s: Subject): set<UserId> {
    set u | u in users && Bound(users[u], s)
  }

  function WithEmail(users: map<UserId, User>, email: string): set<UserId> {
    set u | u in users && users[u].email == email
  }

  /** The unique keys: emails, and subjects where present. */
  ghost predicate Unique(users: map<UserId, User>) {
    && (forall u, v :: u in users && v in users && u != v ==> users[u].email != users[v].email)
    && (forall u, v :: u in users && v in users && u != v && users[u].subjectId.Some? ==>
          !(users[u].provider == users[v].provider && users[u].subjectId == users[v].subjectId))
  }

  /** A bound identity stays with its user. */
  ghost predicate KeepsBindings(before: map<UserId, User>, after: map<UserId, User>) {
    forall u :: u in before ==>
      && u in after && after[u].email == before[u].email
      && (before[u].subjectId.Some? ==>
            after[u].subjectId == before[u].subjectId && after[u].provider == before[u].provider)
  }

  lemma KeepsTransitive(a: map<UserId, User>, b: map<UserId, User>, c: map<UserId, User>)
    requires KeepsBindings(a, b) && KeepsBindings(b, c)
    ensures KeepsBindings(a, c)
  {
  }

  /** Each of the two lookups finds one user at most, as `scalar_one_or_none` demands. */
  lemma LookupsAreUnambiguous(users: map<UserId, User>, s: Subject, email: string, u: UserId)
    requires Unique(users)
    ensures u in BoundTo(users, s) ==> BoundTo(users, s) == {u}
    ensures u in WithEmail(users, email) ==> WithEmail(users, email) == {u}
  {
    forall v | v in BoundTo(users, s) && u in BoundTo(users, s) ensures v == u {}
    forall v | v in WithEmail(users, email) && u in WithEmail(users, email) ensures v == u {}
  }

  /** Changing neither email nor subject of a user keeps both keys. */
  lemma TouchKeeps(users: map<UserId, User>, u: UserId, touched: User)
    requires Unique(users) && u in users
    requires touched.email == users[u].email && touched.provider == users[u].provider
             && touched.subjectId == users[u].subjectId
    ensures Unique(users[u := touched]) && KeepsBindings(users, users[u := touched])
  {
  }

  /** Binding a subject that nobody has to a user that has none keeps both keys. */
  lemma BindKeeps(users: map<UserId, User>, u: UserId, s: Subject, bound: User)
    requires Unique(users) && u in users && users[u].subjectId.None?
    requires forall v :: v in users ==> !Bound(users[v], s)
    requires bound.email == users[u].email && Bound(bound, s)
    ensures Unique(users[u := bound]) && KeepsBindings(users, users[u := bound])
  {
  }

  /** So does a new user with a new email and a new subject. */
  lemma CreateKeeps(users: map<UserId, User>, u: UserId, s: Subject, created: User)
    requires Unique(users) && u !in users && Bound(created, s)
    requires forall v :: v in users ==> !Bound(users[v], s) && users[v].email != created.email
    ensures Unique(users[u := created]) && KeepsBindings(users, users[u := created])
  {
  }

  /** A login, or an administrator switching an account on or off. */
  datatype Action = Login(subject: Subject, email: string, now: int) | SetDisabled(user: UserId, disabled: bool)

  /** The user table and the generator of fresh identifiers. */
  datatype Table = Table(users: map<UserId, User>, nextId: UserId)

  ghost predicate Valid(t: Table) {
    Unique(t.users) && forall u :: u in t.users ==> u < t.nextId
  }

  /** Who a login is taken for: the user bound to the subject; else the user of that email if it
      is not bound yet; else, if the email is free, a new user. */
  ghost function Decision(t: Table, s: Subject, email: string): Outcome {
    if u :| u in t.users && Bound(t.users[u], s) then
      if t.users[u].disabled then AccountDisabled else LoggedIn(u)
    else if u :| u in t.users && t.users[u].email == email then
      if t.users[u].subjectId.Some? then EmailTaken
      else if t.users[u].disabled then AccountDisabled else LoggedIn(u)
    else LoggedIn(t.nextId)
  }

  function NewUser(s: Subject, email: string, now: int, curators: set<string>): User {
    User(s.provider, Some(s.id), email, email in curators, false, now)
  }

  function Touched(u: User, s: Subject, now: int): User {
    u.(provider := s.provider, subjectId := Some(s.id), lastLogin := now)
  }

  ghost function Apply(t: Table, a: Action, curators: set<string>): Table {
    match a
    case Login(s, email, now) =>
      (match Decision(t, s, email)
       case LoggedIn(u) =>
         if u in t.users then t.(users := t.users[u := Touched(t.users[u], s, now)])
         else Table(t.users[u := NewUser(s, email, now, curators)], t.nextId + 1)
       case _ => t)
    case SetDisabled(u, disabled) =>
      if u in t.users then t.(users := t.users[u := t.users[u].(disabled := disabled)]) else t
  }

  ghost function Play(t: Table, actions: seq<Action>, curators: set<string>): Table
    decreases |actions|
  {
    if actions == [] then t else Play(Apply(t, actions[0], curators), actions[1..], curators)
  }

  ghost function Answer(t: Table, a: Action): Option<Outcome> {
    if a.Login? then Some(Decision(t, a.subject, a.email)) else None
  }

  ghost function Outcomes(t: Table, actions: seq<Action>, curators: set<string>): (r: seq<Option<Outcome>>)
    ensures |r| == |actions|
    decreases |actions|
  {
    if actions == [] then []
    else [Answer(t, actions[0])] + Outcomes(Apply(t, actions[0], curators), actions[1..], curators)
  }

  /** One login or switch violates no unique key and changes no binding, and a login that succeeds
      leaves its subject bound to the user returned. */
  lemma ApplyKeeps(t: Table, a: Action, curators: set<string>)
    requires Valid(t)
    ensures Valid(Apply(t, a, curators)) && KeepsBindings(t.users, Apply(t, a, curators).users)
    ensures a.Login? && Decision(t, a.subject, a.email).LoggedIn? ==>
              var u, after := Decision(t, a.subject, a.email).user, Apply(t, a, curators).users;
              u in after && Bound(after[u], a.subject) && !after[u].disabled
  {
    hide Unique, KeepsBindings;
    match a
    case Login(s, email, now) =>
      match Decision(t, s, email) {
        case LoggedIn(u) =>
          if u !in t.users {
            CreateKeeps(t.users, u, s, NewUser(s, email, now, curators));
          } else if Bound(t.users[u], s) {
            TouchKeeps(t.users, u, Touched(t.users[u], s, now));
          } else {
            BindKeeps(t.users, u, s, Touched(t.users[u], s, now));
          }
        case _ => NothingChanges(t.users);
      }
    case SetDisabled(u, disabled) =>
      if u in t.users {
        TouchKeeps(t.users, u, t.users[u].(disabled := disabled));
      } else {
        NothingChanges(t.users);
      }
  }

  lemma NothingChanges(users: map<UserId, User>)
    ensures KeepsBindings(users, users)
  {
  }

  /** Over every sequence of logins and account switches emails and subjects stay unique and no
      bound identity is ever bound again. */
  lemma {:induction false} PlayKeeps(t: Table, actions: seq<Action>, curators: set<string>)
    requires Valid(t)
    ensures Valid(Play(t, actions, curators)) && KeepsBindings(t.users, Play(t, actions, curators).users)
    decreases |actions|
  {
    hide Valid, KeepsBindings, Apply;
    if actions == [] {
      NothingChanges(t.users);
    } else {
      var next := Apply(t, actions[0], curators);
      ApplyKeeps(t, actions[0], curators);
      PlayKeeps(next, actions[1..], curators);
      KeepsTransitive(t.users, next.users, Play(next, actions[1..], curators).users);
    }
  }

  /** All of the table but one user is as it was. */
  ghost predicate OthersStay(before: map<UserId, User>, after: map<UserId, User>, u: UserId) {
    forall v :: v in before && v != u ==> v in after && after[v] == before[v]
  }

  /** What a login comes to when nobody is bound to its subject: a user of that email who is bound to
      another subject keeps the email; one who is disabled stays so; a seeded user is bound, and keeps
      role and email; and if the email is new, so is the user, a curator exactly when configured. */
  lemma FirstLogin(t: Table, s: Subject, email: string, now: int, curators: set<string>)
    requires Valid(t) && forall u :: u in t.users ==> !Bound(t.users[u], s)
    ensures var r, after := Decision(t, s, email), Apply(t, Login(s, email, now), curators).users;
            && (forall u :: u in t.users && t.users[u].email == email ==>
                  var known := t.users[u];
                  if known.subjectId.Some? then r == EmailTaken && after == t.users
                  else if known.disabled then r == AccountDisabled && after == t.users
                  else && r == LoggedIn(u) && OthersStay(t.users, after, u) && after.Keys == t.users.Keys
                       && after[u] == User(s.provider, Some(s.id), email, known.curator, false, now))
            && ((forall u :: u in t.users ==> t.users[u].email != email) ==>
                  && r.LoggedIn? && r.user !in t.users && OthersStay(t.users, after, r.user)
                  && after.Keys == t.users.Keys + {r.user}
                  && after[r.user] == User(s.provider, Some(s.id), email, email in curators, false, now))
  {
    hide KeepsBindings;
    forall u | u in t.users && t.users[u].email == email
      ensures forall v :: v in t.users && t.users[v].email == email ==> v == u
    {
      assert Unique(t.users);
    }
  }

  /** What a login of a bound subject comes to: its user logs in, whatever the email, and nothing but
      the time of login changes; or the account is disabled and nothing changes at all. */
  lemma LaterLogin(t: Table, s: Subject, email: string, now: int, curators: set<string>, u: UserId)
    requires Valid(t) && u in t.users && Bound(t.users[u], s)
    ensures var r, after := Decision(t, s, email), Apply(t, Login(s, email, now), curators).users;
            if t.users[u].disabled then r == AccountDisabled && after == t.users
            else r == LoggedIn(u) && OthersStay(t.users, after, u) && after.Keys == t.users.Keys
                 && after[u] == t.users[u].(lastLogin := now)
  {
    BoundDecides(t, s, email, u);
  }

  /** Switching an account on or off changes that and nothing else, and decides the next login of its
      subject. */
  lemma SwitchDecides(t: Table, u: UserId, disabled: bool, s: Subject, email: string, curators: set<string>)
    requires Valid(t) && u in t.users && Bound(t.users[u], s)
    ensures var after := Apply(t, SetDisabled(u, disabled), curators);
            && after.users.Keys == t.users.Keys && OthersStay(t.users, after.users, u)
            && after.users[u] == t.users[u].(disabled := disabled)
            && Decision(after, s, email) == if disabled then AccountDisabled else LoggedIn(u)
  {
    ApplyKeeps(t, SetDisabled(u, disabled), curators);
    BoundDecides(Apply(t, SetDisabled(u, disabled), curators), s, email, u);
  }

  /** A bound subject is taken for its user, whatever email it presents. */
  lemma BoundDecides(t: Table, s: Subject, email: string, u: UserId)
    requires Valid(t) && u in t.users && Bound(t.users[u], s)
    ensures Decision(t, s, email) == if t.users[u].disabled then AccountDisabled else LoggedIn(u)
  {
    LookupsAreUnambiguous(t.users, s, email, u);
    assert forall v :: v in t.users && Bound(t.users[v], s) ==> v in BoundTo(t.users, s);
  }

  lemma {:induction false} BoundForGood(t: Table, actions: seq<Action>, curators: set<string>, u: UserId, j: nat)
    requires Valid(t) && u in t.users && j < |actions| && actions[j].Login? && Bound(t.users[u], actions[j].subject)
    ensures Outcomes(t, actions, curators)[j] in {Some(LoggedIn(u)), Some(AccountDisabled)}
    decreases |actions|
  {
    hide Valid, Apply, Decision;
    if j == 0 {
      BoundDecides(t, actions[0].subject, actions[0].email, u);
    } else {
      ApplyKeeps(t, actions[0], curators);
      BoundForGood(Apply(t, actions[0], curators), actions[1..], curators, u, j - 1);
    }
  }

  /** Once a login succeeded for a subject, every later login of that subject returns the same
      user or finds the account disabled. */
  lemma {:induction false} OneUserPerSubject(t: Table, actions: seq<Action>, curators: set<string>, i: nat, j: nat)
    requires Valid(t) && i < j < |actions| && actions[i].Login? && actions[j].Login?
    requires actions[i].subject == actions[j].subject
    requires Outcomes(t, actions, curators)[i].Some? && Outcomes(t, actions, curators)[i].value.LoggedIn?
    ensures Outcomes(t, actions, curators)[j] in {Outcomes(t, actions, curators)[i], Some(AccountDisabled)}
    decreases |actions|
  {
    hide Valid, Apply, Decision;
    var next := Apply(t, actions[0], curators);
    ApplyKeeps(t, actions[0], curators);
    if i == 0 {
      var u := Decision(t, actions[0].subject, actions[0].email).user;
      BoundForGood(next, actions[1..], curators, u, j - 1);
    } else {
      OneUserPerSubject(next, actions[1..], curators, i - 1, j - 1);
    }
  }

  // ------------------------------------------------------------------ the service

  /** The user table; `bootstrap` are the configured curator emails. */
  class UserTable {
    var users: map<UserId, User>
    var nextId: UserId
    const bootstrap: set<string>

    function State(): Table
      reads this
    {
      Table(users, nextId)
    }

    constructor (seed: map<UserId, User>, next: UserId, curators: set<string>)
      ensures State() == Table(seed, next) && bootstrap == curators
    {
      users, nextId, bootstrap := seed, next, curators;
    }

    /** `find_or_create_user`. */
    method FindOrCreate(s: Subject, email: string, now: int) returns (r: Outcome)
      requires Valid(State())
      modifies this
      ensures State() == Apply(old(State()), Login(s, email, now), bootstrap)
      ensures r == Decision(old(State()), s, email)
    {
      hide Unique;
      var known := BoundTo(users, s);
      assert forall u :: u in users && Bound(users[u], s) ==> u in known;
      if known != {} {
        var u :| u in known;
        LookupsAreUnambiguous(users, s, email, u);
        if users[u].disabled {
          return AccountDisabled;
        }
        users := users[u := users[u].(lastLogin := now)];
        return LoggedIn(u);
      }
      var byEmail := WithEmail(users, email);
      assert forall u :: u in users && users[u].email == email ==> u in byEmail;
      if byEmail != {} {
        var u :| u in byEmail;
        LookupsAreUnambiguous(users, s, email, u);
        if users[u].subjectId.None? {
          if users[u].disabled {
            return AccountDisabled;
          }
          users := users[u := users[u].(provider := s.provider, subjectId := Some(s.id), lastLogin := now)];
          return LoggedIn(u);
        }
        return EmailTaken;
      }
      users := users[nextId := User(s.provider, Some(s.id), email, email in bootstrap, false, now)];
      r := LoggedIn(nextId);
      nextId := nextId + 1;
    }

    method Administer(u: UserId, disabled: bool)
      modifies this
      ensures State() == Apply(old(State()), SetDisabled(u, disabled), bootstrap)
    {
      if u in users {
        users := users[u := users[u].(disabled := disabled)];
      }
    }

    method PlayAll(actions: seq<Action>) returns (outcomes: seq<Option<Outcome>>)
      requires Valid(State())
      modifies this
      ensures State() == Play(old(State()), actions, bootstrap)
      ensures outcomes == Outcomes(old(State()), actions, bootstrap)
    {
      hide Valid, Apply, Decision;
      outcomes := [];
      for k := 0 to |actions|
        invariant Valid(State())
        invariant Play(State(), actions[k..], bootstrap) == Play(old(State()), actions, bootstrap)
        invariant outcomes + Outcomes(State(), actions[k..], bootstrap) == Outcomes(old(State()), actions, bootstrap)
      {
        assert actions[k..][1..] == actions[k + 1..];
        ApplyKeeps(State(), actions[k], bootstrap);
        match actions[k]
        case Login(s, email, now) =>
          var r := FindOrCreate(s, email, now);
          outcomes := outcomes + [Some(r)];
        case SetDisabled(u, disabled) =>
          Administer(u, disabled);
          outcomes := outcomes + [None];
      }
    }
  }
}
