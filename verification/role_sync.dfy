/**
 The role synchroniser: the diff of enabled users against existing roles, the
 statements it emits, and what applying them does to a role catalog.
 */
module RoleSync {
  import opened Names
  import opened Options
  import opened Sorting

  /** `password` is None when no password clause is emitted. */
  datatype Inputs = Inputs(
    prefix: string,
    readerRole: string,
    existingRoles: seq<string>,
    expectedUserIds: seq<int>,
    readerMembers: map<string, bool>,
    password: Option<string -> string>)

  datatype Statement =
    | CreateRole(role: string, password: Option<string>)
    | AlterPassword(role: string, secret: string)
    | Grant(group: string, role: string)
    | DropIfExists(role: string)

  datatype Plan = Plan(
    create: seq<string>,
    grantReader: seq<string>,
    drop: seq<string>,
    alterPassword: seq<string>,
    ddl: seq<Statement>)

  function PasswordOf(inp: Inputs, role: string): Option<string> {
    match inp.password
    case None => None
    case Some(f) => Some(f(role))
  }

  // ----- what the plan must contain -----

  ghost predicate NamesFit(inp: Inputs) {
    forall id | id in inp.expectedUserIds :: RoleName(inp.prefix, id).Ok?
  }

  /** The names of the enabled users; an id without a name has none. */
  function Derived(prefix: string, ids: seq<int>): set<string> {
    if ids == [] then {} else
      var last := |ids| - 1;
      Derived(prefix, ids[..last])
      + match RoleName(prefix, ids[last])
        case Ok(name) => {name}
        case Err(_) => {}
  }

  ghost function Expected(inp: Inputs): set<string> {
    Derived(inp.prefix, inp.expectedUserIds)
  }

  lemma {:induction false} DerivedMeans(prefix: string, ids: seq<int>, name: string)
    ensures name in Derived(prefix, ids) <==> exists id | id in ids :: RoleName(prefix, id) == Ok(name)
  {
    hide RoleName;
    if ids != [] {
      var last := |ids| - 1;
      DerivedMeans(prefix, ids[..last], name);
      assert ids == ids[..last] + [ids[last]];
    }
  }

  ghost function Existing(inp: Inputs): set<string> {
    set n | n in inp.existingRoles && HasManagedPrefix(n, inp.prefix)
  }

  predicate IsMember(inp: Inputs, name: string) {
    name in inp.readerMembers && inp.readerMembers[name]
  }

  ghost predicate Ascending(s: seq<string>, xs: set<string>) {
    Lists(s, xs) && SortedBy(BYTE_ORDER, s)
  }

  ghost predicate PlanFor(inp: Inputs, plan: Plan) {
    && Ascending(plan.create, Expected(inp) - Existing(inp))
    && Ascending(plan.grantReader, set n | n in Expected(inp) && !(n in Existing(inp) && IsMember(inp, n)))
    && Ascending(plan.drop, Existing(inp) - Expected(inp))
    && Ascending(plan.alterPassword, if inp.password.Some? then Expected(inp) * Existing(inp) else {})
    && plan.ddl == Creates(inp, plan.create) + Alters(inp, plan.alterPassword)
                 + Grants(inp, plan.grantReader) + Drops(plan.drop)
  }

  function Creates(inp: Inputs, names: seq<string>): seq<Statement> {
    seq(|names|, i requires 0 <= i < |names| => CreateRole(names[i], PasswordOf(inp, names[i])))
  }

  function Alters(inp: Inputs, names: seq<string>): seq<Statement> {
    match inp.password
    case None => []
    case Some(f) => seq(|names|, i requires 0 <= i < |names| => AlterPassword(names[i], f(names[i])))
  }

  function Grants(inp: Inputs, names: seq<string>): seq<Statement> {
    seq(|names|, i requires 0 <= i < |names| => Grant(inp.readerRole, names[i]))
  }

  function Drops(names: seq<string>): seq<Statement> {
    seq(|names|, i requires 0 <= i < |names| => DropIfExists(names[i]))
  }

  /** The plan depends on the inputs only. */
  lemma PlanUnique(inp: Inputs, p: Plan, q: Plan)
    requires PlanFor(inp, p) && PlanFor(inp, q)
    ensures p == q
  {
    AscendingUnique(p.create, q.create, Expected(inp) - Existing(inp));
    AscendingUnique(p.grantReader, q.grantReader,
                    set n | n in Expected(inp) && !(n in Existing(inp) && IsMember(inp, n)));
    AscendingUnique(p.drop, q.drop, Existing(inp) - Expected(inp));
    AscendingUnique(p.alterPassword, q.alterPassword,
                    if inp.password.Some? then Expected(inp) * Existing(inp) else {});
  }

  lemma InListings(inp: Inputs, plan: Plan, name: string)
    requires PlanFor(inp, plan)
    ensures name in plan.create <==> name in Expected(inp) && name !in Existing(inp)
    ensures name in plan.grantReader <==> name in Expected(inp) && !(name in Existing(inp) && IsMember(inp, name))
    ensures name in plan.drop <==> name in Existing(inp) && name !in Expected(inp)
    ensures name in plan.alterPassword <==> inp.password.Some? && name in Expected(inp) && name in Existing(inp)
  {
    hide Expected, Existing, SortedBy;
    ListsFacts(plan.create, Expected(inp) - Existing(inp));
    ListsFacts(plan.grantReader, set n | n in Expected(inp) && !(n in Existing(inp) && IsMember(inp, n)));
    ListsFacts(plan.drop, Existing(inp) - Expected(inp));
    ListsFacts(plan.alterPassword, if inp.password.Some? then Expected(inp) * Existing(inp) else {});
  }

  /** The four listings, from the inputs alone. A name is expected if it is some
      enabled user's, exists if it is listed and is the prefix followed by something,
      and is granted if the membership map says true. */
  lemma ListingsExactly(inp: Inputs, plan: Plan, name: string)
    requires PlanFor(inp, plan)
    ensures var expected := exists id | id in inp.expectedUserIds :: RoleName(inp.prefix, id) == Ok(name);
      var exists_ := name in inp.existingRoles && |name| > |inp.prefix| && name[..|inp.prefix|] == inp.prefix;
      var member := name in inp.readerMembers && inp.readerMembers[name];
      && (name in plan.create <==> expected && !exists_)
      && (name in plan.grantReader <==> expected && !(exists_ && member))
      && (name in plan.drop <==> exists_ && !expected)
      && (name in plan.alterPassword <==> inp.password.Some? && expected && exists_)
  {
    hide Derived, RoleName, PlanFor;
    InListings(inp, plan, name);
    DerivedMeans(inp.prefix, inp.expectedUserIds, name);
  }

  ghost predicate Mentions(sts: seq<Statement>, name: string) {
    exists i | 0 <= i < |sts| :: sts[i].role == name
  }

  lemma MentionsAppend(a: seq<Statement>, b: seq<Statement>, name: string)
    ensures Mentions(a + b, name) <==> Mentions(a, name) || Mentions(b, name)
  {
    if i :| 0 <= i < |a| && a[i].role == name { assert (a + b)[i].role == name; }
    if i :| 0 <= i < |b| && b[i].role == name { assert (a + b)[|a| + i].role == name; }
  }

  lemma MentionsListed(inp: Inputs, names: seq<string>, name: string)
    ensures Mentions(Creates(inp, names), name) <==> name in names
    ensures inp.password.Some? ==> (Mentions(Alters(inp, names), name) <==> name in names)
    ensures Mentions(Grants(inp, names), name) <==> name in names
    ensures Mentions(Drops(names), name) <==> name in names
  {
    if i :| 0 <= i < |names| && names[i] == name {
      assert Creates(inp, names)[i].role == name && Grants(inp, names)[i].role == name;
      assert Drops(names)[i].role == name && (inp.password.Some? ==> Alters(inp, names)[i].role == name);
    }
  }

  /** Some statement of the plan is about this role. */
  ghost predicate Touches(plan: Plan, name: string) {
    Mentions(plan.ddl, name)
  }

  lemma TouchedIsListed(inp: Inputs, plan: Plan, name: string)
    requires PlanFor(inp, plan)
    ensures Touches(plan, name) <==>
      name in plan.create || name in plan.grantReader || name in plan.drop || name in plan.alterPassword
  {
    hide Mentions, Expected, Existing, Ascending, Creates, Grants, Drops;
    var cr, al, gr := Creates(inp, plan.create), Alters(inp, plan.alterPassword), Grants(inp, plan.grantReader);
    InListings(inp, plan, name);
    MentionsAppend(cr, al, name);
    MentionsAppend(cr + al, gr, name);
    MentionsAppend(cr + al + gr, Drops(plan.drop), name);
    MentionsListed(inp, plan.create, name);
    MentionsListed(inp, plan.alterPassword, name);
    MentionsListed(inp, plan.grantReader, name);
    MentionsListed(inp, plan.drop, name);
    NothingMentioned(name);
  }

  lemma NothingMentioned(name: string)
    ensures !Mentions([], name)
  {
  }

  /** Exactly which roles the statements are about. They all carry the prefix; and
      the reader role is left alone if and only if this rule leaves it alone, which
      a reader role outside the prefix ensures. */
  lemma TouchesExactly(inp: Inputs, plan: Plan, name: string)
    requires PlanFor(inp, plan)
    ensures Touches(plan, name) <==>
      && (name in Expected(inp) || name in Existing(inp))
      && !(name in Expected(inp) && name in Existing(inp) && IsMember(inp, name) && inp.password.None?)
    ensures Touches(plan, name) ==> HasManagedPrefix(name, inp.prefix)
  {
    TouchedIsListed(inp, plan, name);
    InListings(inp, plan, name);
    if name in Expected(inp) {
      ExpectedAreManaged(inp, name);
    }
  }

  lemma ExpectedAreManaged(inp: Inputs, name: string)
    requires name in Expected(inp)
    ensures HasManagedPrefix(name, inp.prefix)
  {
    DerivedMeans(inp.prefix, inp.expectedUserIds, name);
    var id :| id in inp.expectedUserIds && RoleName(inp.prefix, id) == Ok(name);
    RoleNameIdentifies(inp.prefix, id, id);
  }

  // ----- the program -----

  /** Reads a set in some order and sorts it: the map loops of Compute followed by
      sort.Strings. */
  method SortedNames(names: set<string>) returns (s: seq<string>)
    ensures Ascending(s, names)
  {
    s := [];
    var rest := names;
    while rest != {}
      invariant rest <= names && Lists(s, names - rest)
    {
      var name :| name in rest;
      s := s + [name];
      assert names - (rest - {name}) == (names - rest) + {name};
      rest := rest - {name};
    }
    assert names - {} == names;
    ByteOrderIsStrict();
    s := Sort(s, BYTE_ORDER);
  }

  method ExpectedNames(inp: Inputs) returns (r: Result<set<string>, NameError>)
    requires ValidPrefix(inp.prefix)
    ensures NamesFit(inp) ==> r == Ok(Expected(inp))
    ensures !NamesFit(inp) ==> r == Err(TooLong)
  {
    hide RoleName;
    var names: set<string> := {};
    for k := 0 to |inp.expectedUserIds|
      invariant forall i | 0 <= i < k :: RoleName(inp.prefix, inp.expectedUserIds[i]).Ok?
      invariant names == Derived(inp.prefix, inp.expectedUserIds[..k])
    {
      assert inp.expectedUserIds[..k + 1][..k] == inp.expectedUserIds[..k];
      match RoleName(inp.prefix, inp.expectedUserIds[k]) {
        case Err(e) =>
          NameErrorIsTooLong(inp.prefix, inp.expectedUserIds[k]);
          return Err(e);
        case Ok(name) => names := names + {name};
      }
    }
    assert inp.expectedUserIds[..|inp.expectedUserIds|] == inp.expectedUserIds;
    return Ok(names);
  }

  lemma NameErrorIsTooLong(prefix: string, id: int)
    requires ValidPrefix(prefix)
    ensures RoleName(prefix, id).Err? ==> RoleName(prefix, id) == Err(TooLong)
  {
  }

  lemma TakeNext<T>(s: seq<T>, i: nat)
    requires i < |s|
    ensures s[..i + 1] == s[..i] + [s[i]]
  {
  }

  method BuildDDL(inp: Inputs, plan: Plan) returns (ddl: seq<Statement>)
    ensures ddl == Creates(inp, plan.create) + Alters(inp, plan.alterPassword)
                 + Grants(inp, plan.grantReader) + Drops(plan.drop)
  {
    hide PasswordOf;
    ddl := [];
    for i := 0 to |plan.create|
      invariant ddl == Creates(inp, plan.create)[..i]
    {
      TakeNext(Creates(inp, plan.create), i);
      ddl := ddl + [CreateRole(plan.create[i], PasswordOf(inp, plan.create[i]))];
    }
    ghost var head := ddl;
    if inp.password.Some? {
      for i := 0 to |plan.alterPassword|
        invariant ddl == head + Alters(inp, plan.alterPassword)[..i]
      {
        TakeNext(Alters(inp, plan.alterPassword), i);
        ddl := ddl + [AlterPassword(plan.alterPassword[i], inp.password.value(plan.alterPassword[i]))];
      }
    }
    assert ddl == head + Alters(inp, plan.alterPassword);
    head := ddl;
    for i := 0 to |plan.grantReader|
      invariant ddl == head + Grants(inp, plan.grantReader)[..i]
    {
      TakeNext(Grants(inp, plan.grantReader), i);
      ddl := ddl + [Grant(inp.readerRole, plan.grantReader[i])];
    }
    head := ddl;
    for i := 0 to |plan.drop|
      invariant ddl == head + Drops(plan.drop)[..i]
    {
      TakeNext(Drops(plan.drop), i);
      ddl := ddl + [DropIfExists(plan.drop[i])];
    }
  }

  method Compute(inp: Inputs) returns (r: Result<Plan, NameError>)
    ensures !ValidPrefix(inp.prefix) ==> r == Err(InvalidPrefix)
    ensures ValidPrefix(inp.prefix) && !NamesFit(inp) ==> r == Err(TooLong)
    ensures ValidPrefix(inp.prefix) && NamesFit(inp) ==> r.Ok? && PlanFor(inp, r.value)
  {
    if !ValidPrefix(inp.prefix) {
      return Err(InvalidPrefix);
    }
    var named := ExpectedNames(inp);
    if named.Err? {
      return Err(named.error);
    }
    var expected := named.value;
    var existing: set<string> := {};
    for i := 0 to |inp.existingRoles|
      invariant existing == set n | n in inp.existingRoles[..i] && HasManagedPrefix(n, inp.prefix)
    {
      assert inp.existingRoles[..i + 1] == inp.existingRoles[..i] + [inp.existingRoles[i]];
      if HasManagedPrefix(inp.existingRoles[i], inp.prefix) {
        existing := existing + {inp.existingRoles[i]};
      }
    }
    assert inp.existingRoles[..|inp.existingRoles|] == inp.existingRoles;
    var create := SortedNames(set n | n in expected && n !in existing);
    var grant := SortedNames(set n | n in expected && !(n in existing && IsMember(inp, n)));
    var drop := SortedNames(set n | n in existing && n !in expected);
    var alter: seq<string> := [];
    if inp.password.Some? {
      alter := SortedNames(set n | n in expected && n in existing);
    }
    assert (set n | n in expected && n !in existing) == expected - existing;
    assert (set n | n in existing && n !in expected) == existing - expected;
    assert (set n | n in expected && n in existing) == expected * existing;
    var plan := Plan(create, grant, drop, alter, []);
    var ddl := BuildDDL(inp, plan);
    return Ok(plan.(ddl := ddl));
  }
}
