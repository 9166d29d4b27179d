/**
 A PostgreSQL role catalog, what the synchroniser's statements do to it, and that
 applying a plan brings it to the expected state.
 */
module RoleCatalog {
  import opened Names
  import opened Options
  import opened RoleSync
  import opened Sorting

  datatype Attributes = Attributes(login: bool, superuser: bool, createRole: bool, inherits: bool)

  datatype Role = Role(attributes: Attributes, password: Option<string>)

  /** `members` holds pairs (group, member). */
  datatype Catalog = Catalog(roles: map<string, Role>, members: set<(string, string)>)

  /** LOGIN NOSUPERUSER NOCREATEROLE INHERIT */
  const MANAGED := Attributes(true, false, false, true)

  /** The members that remain when the roles in `gone` are dropped. */
  function Without(members: set<(string, string)>, gone: set<string>): set<(string, string)> {
    set m | m in members && m.0 !in gone && m.1 !in gone
  }

  /** From the first role each role has the next one as a direct member. */
  predicate Chain(members: set<(string, string)>, path: seq<string>) {
    path != [] && forall i | 0 <= i < |path| - 1 :: (path[i], path[i + 1]) in members
  }

  /** `member` is in `group` through any number of groups, or is the group itself. */
  ghost predicate Within(members: set<(string, string)>, group: string, member: string) {
    exists path: seq<string> :: Chain(members, path) && path[0] == group && path[|path| - 1] == member
  }

  lemma WithinItself(members: set<(string, string)>, r: string)
    ensures Within(members, r, r)
  {
    assert Chain(members, [r]);
  }

  lemma WithinGrows(members: set<(string, string)>, more: set<(string, string)>, group: string, member: string)
    requires Within(members, group, member) && members <= more
    ensures Within(more, group, member)
  {
    var path: seq<string> :| Chain(members, path) && path[0] == group && path[|path| - 1] == member;
    assert Chain(more, path);
  }

  /** A membership in `member` itself opens no new way into a group that leads to it. */
  lemma {:induction false} ChainAvoids(members: set<(string, string)>, x: string, path: seq<string>)
    requires path != [] && Chain(members + {(path[|path| - 1], x)}, path)
    ensures Within(members, path[0], path[|path| - 1])
    decreases |path|
  {
    var last := path[|path| - 1];
    if path[0] == last {
      WithinItself(members, last);
    } else {
      assert (path[0], path[1]) in members;
      var rest := path[1..];
      assert Chain(members + {(last, x)}, rest) by {
        assert forall i | 0 <= i < |rest| :: rest[i] == path[i + 1];
      }
      ChainAvoids(members, x, rest);
      var tail: seq<string> :| Chain(members, tail) && tail[0] == path[1] && tail[|tail| - 1] == last;
      assert Chain(members, [path[0]] + tail);
      assert ([path[0]] + tail)[|tail|] == last;
    }
  }

  lemma GrantOpensNoWay(members: set<(string, string)>, reader: string, x: string, n: string)
    requires !Within(members, n, reader)
    ensures !Within(members + {(reader, x)}, n, reader)
  {
    var more := members + {(reader, x)};
    if Within(more, n, reader) {
      var path: seq<string> :| Chain(more, path) && path[0] == n && path[|path| - 1] == reader;
      ChainAvoids(members, x, path);
      assert false;
    }
  }

  /** None is the error the database reports: a duplicate role, a missing role, or
      a circular membership, direct or through other groups. */
  ghost function Run(st: Statement, c: Catalog): Option<Catalog> {
    match st
    case CreateRole(r, password) =>
      if r in c.roles then None else Some(c.(roles := c.roles[r := Role(MANAGED, password)]))
    case AlterPassword(r, secret) =>
      if r !in c.roles then None
      else Some(c.(roles := c.roles[r := c.roles[r].(password := Some(secret))]))
    case Grant(g, r) =>
      if g !in c.roles || r !in c.roles || Within(c.members, r, g) then None
      else Some(c.(members := c.members + {(g, r)}))
    case DropIfExists(r) =>
      Some(Catalog(c.roles - {r}, Without(c.members, {r})))
  }

  ghost function RunAll(sts: seq<Statement>, c: Catalog): Option<Catalog> {
    if sts == [] then Some(c) else
      match Run(sts[0], c)
      case None => None
      case Some(next) => RunAll(sts[1..], next)
  }

  lemma {:induction false} RunAppend(a: seq<Statement>, b: seq<Statement>, c: Catalog)
    ensures RunAll(a + b, c) == match RunAll(a, c) case None => None case Some(next) => RunAll(b, next)
  {
    if a == [] {
      assert a + b == b;
    } else {
      assert (a + b)[0] == a[0] && (a + b)[1..] == a[1..] + b;
      match Run(a[0], c)
      case None =>
      case Some(next) => RunAppend(a[1..], b, next);
    }
  }

  // ----- one phase of the script at a time -----

  function Fresh(inp: Inputs, names: set<string>): map<string, Role> {
    map n | n in names :: Role(MANAGED, PasswordOf(inp, n))
  }

  /** The roles with the passwords of the given ones set. */
  function Repassworded(roles: map<string, Role>, names: set<string>, password: Option<string -> string>)
    : map<string, Role>
  {
    match password
    case None => roles
    case Some(f) => map n | n in roles :: if n in names then roles[n].(password := Some(f(n))) else roles[n]
  }

  function GrantedTo(reader: string, names: set<string>): set<(string, string)> {
    set n | n in names :: (reader, n)
  }

  lemma {:induction false} RunCreates(inp: Inputs, s: seq<string>, xs: set<string>, c: Catalog)
    requires Lists(s, xs) && xs !! c.roles.Keys
    ensures RunAll(Creates(inp, s), c) == Some(c.(roles := c.roles + Fresh(inp, xs)))
    decreases |s|
  {
    hide Lists, PasswordOf, Fresh;
    ListsFacts(s, xs);
    if s == [] {
      NothingFresh(inp, c.roles);
    } else {
      ListsRest(s, xs);
      var next := c.(roles := c.roles[s[0] := Role(MANAGED, PasswordOf(inp, s[0]))]);
      assert Creates(inp, s)[1..] == Creates(inp, s[1..]);
      RunCreates(inp, s[1..], xs - {s[0]}, next);
      FreshGrows(inp, c.roles, s[0], xs);
    }
  }

  lemma NothingFresh(inp: Inputs, roles: map<string, Role>)
    ensures roles + Fresh(inp, {}) == roles
  {
  }

  lemma FreshGrows(inp: Inputs, roles: map<string, Role>, x: string, xs: set<string>)
    requires x in xs
    ensures roles[x := Role(MANAGED, PasswordOf(inp, x))] + Fresh(inp, xs - {x}) == roles + Fresh(inp, xs)
  {
    hide PasswordOf;
  }

  lemma {:induction false} RunAlters(inp: Inputs, s: seq<string>, xs: set<string>, c: Catalog)
    requires Lists(s, xs) && xs <= c.roles.Keys
    ensures RunAll(Alters(inp, s), c) == Some(c.(roles := Repassworded(c.roles, xs, inp.password)))
    decreases |s|
  {
    ListsFacts(s, xs);
    if s == [] || inp.password.None? {
      assert Repassworded(c.roles, xs, inp.password) == c.roles;
    } else {
      ListsRest(s, xs);
      var f := inp.password.value;
      var next := c.(roles := c.roles[s[0] := c.roles[s[0]].(password := Some(f(s[0])))]);
      assert Alters(inp, s)[1..] == Alters(inp, s[1..]);
      RunAlters(inp, s[1..], xs - {s[0]}, next);
      assert Repassworded(next.roles, xs - {s[0]}, inp.password) == Repassworded(c.roles, xs, inp.password);
    }
  }

  lemma {:induction false} RunGrants(inp: Inputs, s: seq<string>, xs: set<string>, c: Catalog)
    requires Lists(s, xs) && xs <= c.roles.Keys && inp.readerRole in c.roles
    requires forall n | n in xs :: !Within(c.members, n, inp.readerRole)
    ensures RunAll(Grants(inp, s), c) == Some(c.(members := c.members + GrantedTo(inp.readerRole, xs)))
    decreases |s|
  {
    hide Within, Lists;
    ListsFacts(s, xs);
    if s == [] {
      assert c.members + GrantedTo(inp.readerRole, xs) == c.members;
    } else {
      ListsRest(s, xs);
      var next := c.(members := c.members + {(inp.readerRole, s[0])});
      assert Grants(inp, s)[1..] == Grants(inp, s[1..]);
      forall n | n in xs
        ensures !Within(next.members, n, inp.readerRole)
      {
        GrantOpensNoWay(c.members, inp.readerRole, s[0], n);
      }
      RunGrants(inp, s[1..], xs - {s[0]}, next);
      assert next.members + GrantedTo(inp.readerRole, xs - {s[0]}) == c.members + GrantedTo(inp.readerRole, xs);
    }
  }

  /** A grant to a role that the reader group is in fails, and the script with it. */
  lemma {:induction false} CircularGrantFails(inp: Inputs, s: seq<string>, n: string, c: Catalog)
    requires n in s && Within(c.members, n, inp.readerRole)
    ensures RunAll(Grants(inp, s), c) == None
    decreases |s|
  {
    hide Within;
    assert Grants(inp, s)[1..] == Grants(inp, s[1..]);
    if s[0] != n {
      match Run(Grants(inp, s)[0], c)
      case None =>
      case Some(next) =>
        WithinGrows(c.members, next.members, n, inp.readerRole);
        CircularGrantFails(inp, s[1..], n, next);
    }
  }

  lemma {:induction false} RunDrops(s: seq<string>, xs: set<string>, c: Catalog)
    requires Lists(s, xs)
    ensures RunAll(Drops(s), c) == Some(Catalog(c.roles - xs, Without(c.members, xs)))
    decreases |s|
  {
    hide Lists;
    ListsFacts(s, xs);
    if s == [] {
      assert Without(c.members, xs) == c.members && c.roles - xs == c.roles;
    } else {
      ListsRest(s, xs);
      var next := Catalog(c.roles - {s[0]}, Without(c.members, {s[0]}));
      assert Drops(s)[1..] == Drops(s[1..]);
      RunDrops(s[1..], xs - {s[0]}, next);
      DropsAdd(c, s[0], xs);
    }
  }

  lemma DropsAdd(c: Catalog, x: string, xs: set<string>)
    requires x in xs
    ensures Without(Without(c.members, {x}), xs - {x}) == Without(c.members, xs)
    ensures c.roles - {x} - (xs - {x}) == c.roles - xs
  {
    assert {x} + (xs - {x}) == xs;
  }

  // ----- convergence -----

  /** The inputs describe the catalog: which managed roles there are and which of
      them are in the reader group. The existing roles may list others too. */
  ghost predicate Describes(inp: Inputs, c: Catalog) {
    && (forall n | HasManagedPrefix(n, inp.prefix) :: n in inp.existingRoles <==> n in c.roles)
    && (forall n | HasManagedPrefix(n, inp.prefix) && n in c.roles ::
          IsMember(inp, n) <==> (inp.readerRole, n) in c.members)
    && (forall m | m in c.members :: m.0 in c.roles && m.1 in c.roles)
  }

  ghost predicate Converged(inp: Inputs, c: Catalog, d: Catalog) {
    // exactly the expected managed roles, and all the others
    && (forall n :: n in d.roles <==> if HasManagedPrefix(n, inp.prefix) then n in Expected(inp) else n in c.roles)
    // the others unchanged
    && (forall n | n in c.roles && !HasManagedPrefix(n, inp.prefix) :: d.roles[n] == c.roles[n])
    // every expected one with its password, when passwords are on
    && (forall n | n in Expected(inp) && n in d.roles && inp.password.Some? ::
          d.roles[n].password == Some(inp.password.value(n)))
    && (forall n | n in Expected(inp) && n in d.roles && inp.password.None? ::
          if n in c.roles then d.roles[n] == c.roles[n] else d.roles[n].password == None)
    // a new one may log in and inherits, and is no superuser and creates no roles
    && (forall n | n in Expected(inp) && n in d.roles ::
          d.roles[n].attributes == if n in c.roles then c.roles[n].attributes else Attributes(
            login := true, superuser := false, createRole := false, inherits := true))
    // and in the reader group; no other membership between remaining roles changes
    && (forall g, m :: (g, m) in d.members <==>
          ((g == inp.readerRole && m in Expected(inp)) || ((g, m) in c.members && g in d.roles && m in d.roles)))
  }

  ghost function Granted(inp: Inputs): set<string> {
    set n | n in Expected(inp) && !(n in Existing(inp) && IsMember(inp, n))
  }

  /** The reader group is a role that this tool does not manage, and that is in no
      role the script grants it to. */
  ghost predicate ReaderApart(inp: Inputs, c: Catalog) {
    && inp.readerRole in c.roles && !HasManagedPrefix(inp.readerRole, inp.prefix)
    && forall n | n in Granted(inp) :: !Within(c.members, n, inp.readerRole)
  }

  ghost function Altered(inp: Inputs): set<string> {
    if inp.password.Some? then Expected(inp) * Existing(inp) else {}
  }

  /** Where the script ends if none of its statements fails. */
  ghost function Final(inp: Inputs, c: Catalog): Catalog {
    var gone := Existing(inp) - Expected(inp);
    Catalog(RolesBefore(inp, c) - gone, Without(c.members + GrantedTo(inp.readerRole, Granted(inp)), gone))
  }

  lemma ExistingAreThere(inp: Inputs, c: Catalog)
    requires Describes(inp, c)
    ensures forall n :: n in Existing(inp) <==> n in c.roles && HasManagedPrefix(n, inp.prefix)
    ensures forall n | n in Expected(inp) :: n in c.roles <==> n in Existing(inp)
  {
    forall n | n in Expected(inp)
      ensures HasManagedPrefix(n, inp.prefix)
    {
      ExpectedAreManaged(inp, n);
    }
  }

  /** Creates and alters cannot fail, and change no membership. */
  lemma RunBefore(inp: Inputs, plan: Plan, c: Catalog)
    requires PlanFor(inp, plan) && Describes(inp, c)
    ensures RunAll(Creates(inp, plan.create) + Alters(inp, plan.alterPassword), c)
         == Some(c.(roles := RolesBefore(inp, c)))
    ensures RolesBefore(inp, c).Keys == c.roles.Keys + Expected(inp)
  {
    hide Expected, HasManagedPrefix, Fresh, Creates, Alters, RunAll, SortedBy, Lists;
    ExistingAreThere(inp, c);
    RunCreates(inp, plan.create, Expected(inp) - Existing(inp), c);
    FreshKeys(inp, Expected(inp) - Existing(inp));
    var c1 := c.(roles := c.roles + Fresh(inp, Expected(inp) - Existing(inp)));
    RunAlters(inp, plan.alterPassword, Altered(inp), c1);
    RunAppend(Creates(inp, plan.create), Alters(inp, plan.alterPassword), c);
    assert RolesBefore(inp, c).Keys == c1.roles.Keys;
  }

  ghost function RolesBefore(inp: Inputs, c: Catalog): map<string, Role> {
    Repassworded(c.roles + Fresh(inp, Expected(inp) - Existing(inp)), Altered(inp), inp.password)
  }

  /** Creates, alters and grants, when none of them can fail. */
  lemma RunFront(inp: Inputs, plan: Plan, c: Catalog)
    requires PlanFor(inp, plan) && Describes(inp, c) && ReaderApart(inp, c)
    ensures RunAll(Creates(inp, plan.create) + Alters(inp, plan.alterPassword) + Grants(inp, plan.grantReader), c)
         == Some(Catalog(RolesBefore(inp, c), c.members + GrantedTo(inp.readerRole, Granted(inp))))
  {
    hide Expected, Creates, Alters, Grants, RunAll, SortedBy, Lists, RolesBefore, Describes, Within;
    var c2 := c.(roles := RolesBefore(inp, c));
    RunBefore(inp, plan, c);
    RunGrants(inp, plan.grantReader, Granted(inp), c2);
    RunAppend(Creates(inp, plan.create) + Alters(inp, plan.alterPassword), Grants(inp, plan.grantReader), c);
  }

  lemma FreshKeys(inp: Inputs, names: set<string>)
    ensures Fresh(inp, names).Keys == names
  {
  }

  lemma ExpectedNotReader(inp: Inputs, c: Catalog)
    requires ReaderApart(inp, c)
    ensures inp.readerRole !in Expected(inp)
  {
    if inp.readerRole in Expected(inp) { ExpectedAreManaged(inp, inp.readerRole); }
  }

  lemma RunPlan(inp: Inputs, plan: Plan, c: Catalog)
    requires PlanFor(inp, plan) && Describes(inp, c) && ReaderApart(inp, c)
    ensures RunAll(plan.ddl, c) == Some(Final(inp, c))
  {
    hide Describes, ReaderApart, Repassworded, Fresh, Without, GrantedTo, Expected;
    var front := Creates(inp, plan.create) + Alters(inp, plan.alterPassword) + Grants(inp, plan.grantReader);
    RunFront(inp, plan, c);
    RunDrops(plan.drop, Existing(inp) - Expected(inp), RunAll(front, c).value);
    RunAppend(front, Drops(plan.drop), c);
  }

  lemma FinalConverged(inp: Inputs, c: Catalog)
    requires Describes(inp, c) && ReaderApart(inp, c)
    ensures Converged(inp, c, Final(inp, c))
  {
    hide Expected, HasManagedPrefix;
    ExistingAreThere(inp, c);
    ExpectedNotReader(inp, c);
    assert forall n | n in Expected(inp) :: HasManagedPrefix(n, inp.prefix) by {
      forall n | n in Expected(inp) ensures HasManagedPrefix(n, inp.prefix) { ExpectedAreManaged(inp, n); }
    }
  }

  /** Role sync converges: the script never meets a missing or duplicate role, and
      ends with exactly the expected managed roles, in the reader group and with
      their passwords; everything else is unchanged. */
  lemma SyncConverges(inp: Inputs, plan: Plan, c: Catalog)
    requires PlanFor(inp, plan) && Describes(inp, c) && ReaderApart(inp, c)
    ensures RunAll(plan.ddl, c).Some? && Converged(inp, c, RunAll(plan.ddl, c).value)
  {
    RunPlan(inp, plan, c);
    FinalConverged(inp, c);
  }

  /** The inputs of a second run with the same users: read back from catalog `d`. */
  ghost predicate ReadBack(inp: Inputs, again: Inputs, d: Catalog) {
    && again.prefix == inp.prefix && again.readerRole == inp.readerRole
    && again.expectedUserIds == inp.expectedUserIds && again.password == inp.password
    && Describes(again, d)
  }

  lemma NothingToChange(inp: Inputs, c: Catalog, d: Catalog, again: Inputs)
    requires Converged(inp, c, d) && ReadBack(inp, again, d)
    ensures Expected(again) == Expected(inp) == Existing(again) && Granted(again) == {}
  {
    assert Expected(again) == Expected(inp);
    hide Expected, HasManagedPrefix;
    ExistingAreThere(again, d);
    forall n | n in Expected(inp)
      ensures n in Existing(again) && IsMember(again, n)
    {
      ExpectedAreManaged(inp, n);
      assert n in d.roles && (inp.readerRole, n) in d.members;
    }
    assert Existing(again) == Expected(inp);
  }

  lemma PasswordsStay(inp: Inputs, c: Catalog, d: Catalog, again: Inputs)
    requires Converged(inp, c, d) && again.password == inp.password
    requires Expected(again) == Expected(inp) == Existing(again)
    ensures Repassworded(d.roles, Altered(again), again.password) == d.roles
  {
    hide Expected, HasManagedPrefix, Existing;
    if inp.password.Some? {
      assert Altered(again) == Expected(inp);
      forall n | n in Expected(inp) && n in d.roles
        ensures d.roles[n].(password := Some(inp.password.value(n))) == d.roles[n]
      {
      }
    }
  }

  /** A second run, on inputs read back from the result, changes nothing. */
  lemma SyncIdempotent(inp: Inputs, c: Catalog, d: Catalog, again: Inputs, plan: Plan)
    requires Converged(inp, c, d) && ReadBack(inp, again, d) && PlanFor(again, plan)
    ensures plan.create == [] && plan.grantReader == [] && plan.drop == []
    ensures RunAll(plan.ddl, d) == Some(d)
  {
    NothingToChange(inp, c, d, again);
    PasswordsStay(inp, c, d, again);
    assert Altered(again) <= d.roles.Keys by { ExistingAreThere(again, d); }
    hide Expected, HasManagedPrefix, Existing, Converged, Describes, Repassworded, RunAll;
    ListsFacts(plan.create, {});
    ListsFacts(plan.grantReader, {});
    ListsFacts(plan.drop, {});
    assert plan.ddl == Alters(again, plan.alterPassword);
    RunAlters(again, plan.alterPassword, Altered(again), d);
  }

  // ----- when the script does not converge -----

  /** With a managed reader role the script fails, or drops the group it granted. */
  lemma ManagedReaderFails(inp: Inputs, plan: Plan, c: Catalog)
    requires PlanFor(inp, plan) && Describes(inp, c)
    requires inp.readerRole in c.roles && HasManagedPrefix(inp.readerRole, inp.prefix)
    requires (inp.readerRole, inp.readerRole) !in c.members
    ensures RunAll(plan.ddl, c).Some? ==>
      forall n :: (inp.readerRole, n) !in RunAll(plan.ddl, c).value.members
  {
    hide Expected, HasManagedPrefix, RunAll, Creates, Alters, Grants, Drops, Within;
    ExistingAreThere(inp, c);
    var before := Creates(inp, plan.create) + Alters(inp, plan.alterPassword);
    var gr, dr := Grants(inp, plan.grantReader), Drops(plan.drop);
    RunAppend(before, gr, c);
    RunAppend(before + gr, dr, c);
    if inp.readerRole in Expected(inp) {
      ListsFacts(plan.grantReader, Granted(inp));
      if RunAll(before, c).Some? {
        WithinItself(RunAll(before, c).value.members, inp.readerRole);
        CircularGrantFails(inp, plan.grantReader, inp.readerRole, RunAll(before, c).value);
      }
    } else if RunAll(before + gr, c).Some? {
      RunDrops(plan.drop, Existing(inp) - Expected(inp), RunAll(before + gr, c).value);
    }
  }

  /** With a reader group inside a role that it is granted to the script fails. */
  lemma CircularReaderFails(inp: Inputs, plan: Plan, c: Catalog, n: string)
    requires PlanFor(inp, plan) && Describes(inp, c)
    requires n in Granted(inp) && Within(c.members, n, inp.readerRole)
    ensures RunAll(plan.ddl, c) == None
  {
    hide Expected, Existing, RunAll, Creates, Alters, Grants, Drops, Within, RolesBefore, Describes;
    var before := Creates(inp, plan.create) + Alters(inp, plan.alterPassword);
    var gr, dr := Grants(inp, plan.grantReader), Drops(plan.drop);
    RunBefore(inp, plan, c);
    ListsFacts(plan.grantReader, Granted(inp));
    CircularGrantFails(inp, plan.grantReader, n, c.(roles := RolesBefore(inp, c)));
    RunAppend(before, gr, c);
    RunAppend(before + gr, dr, c);
  }

  /** So when at least one user is expected, the script runs through and every
      expected role ends up in the reader group if and only if the reader role is
      outside the managed prefix and in none of the roles it is granted to. */
  lemma ReaderMustBeApart(inp: Inputs, plan: Plan, c: Catalog)
    requires PlanFor(inp, plan) && Describes(inp, c) && Expected(inp) != {} && inp.readerRole in c.roles
    requires (inp.readerRole, inp.readerRole) !in c.members
    ensures ReaderApart(inp, c) <==>
      (RunAll(plan.ddl, c).Some? &&
       forall n | n in Expected(inp) :: (inp.readerRole, n) in RunAll(plan.ddl, c).value.members)
  {
    hide RunAll, Expected, PlanFor, Within, Describes;
    var n :| n in Expected(inp);
    if HasManagedPrefix(inp.readerRole, inp.prefix) {
      ManagedReaderFails(inp, plan, c);
    } else if m :| m in Granted(inp) && Within(c.members, m, inp.readerRole) {
      CircularReaderFails(inp, plan, c, m);
    } else {
      SyncConverges(inp, plan, c);
    }
  }
}
