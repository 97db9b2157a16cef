/** The schema migrations, versions 1 to 5 (migrations/0001_init.sql to
    0005_direct_accounts_and_test_options.sql, and `Db::initialize`). */
module Migration {
  import opened Wrappers
  import opened Identifiers
  import opened Schema

  datatype Mode = Shell | ProxyJump

  /** A row of `login_bindings`. The columns `mode` (versions 1 and 2) and `bank` (versions 2
      and 3) are `None` where the version does not have them. */
  datatype Binding = Binding(
    person: int, key: Option<int>, account: string, mode: Option<Mode>, bank: Option<string>, enabled: bool)

  /** All tables of any version. Tables and columns that a version lacks are empty, or are
      overwritten by the migration that adds them. */
  datatype Tables = Tables(applied: set<int>, db: Db, bindings: map<int, Binding>)

  datatype MigrationError = NewerSchema | IndexNotUnique

  type Step = Result<Tables, MigrationError>

  const CURRENT_VERSION := 5

  const EMPTY := Db(map[], map[], map[], map[], None, map[], map[])

  // ---------- what a binding says ----------

  predicate SameScope(a: Binding, b: Binding) {
    a.person == b.person && a.key == b.key && a.account == b.account
  }

  /** An enabled row grants the person the account for this key scope. */
  ghost predicate Granted(bindings: map<int, Binding>, person: int, key: Option<int>, account: string) {
    exists b :: b in bindings && bindings[b].enabled && bindings[b].person == person && bindings[b].key == key
                && bindings[b].account == account
  }

  ghost predicate Holds(bindings: map<int, Binding>, person: int, account: string) {
    exists b :: b in bindings && bindings[b].enabled && bindings[b].person == person && bindings[b].account == account
  }

  // ---------- migration 3: one row per scope ----------

  /** `ORDER BY enabled DESC, shell first, id ASC`. */
  predicate Before(bindings: map<int, Binding>, a: int, b: int)
    requires a in bindings && b in bindings
  {
    if bindings[a].enabled != bindings[b].enabled then bindings[a].enabled
    else if (bindings[a].mode == Some(Shell)) != (bindings[b].mode == Some(Shell)) then bindings[a].mode == Some(Shell)
    else a < b
  }

  predicate FirstOfScope(bindings: map<int, Binding>, b: int)
    requires b in bindings
  {
    forall c :: c in bindings && SameScope(bindings[c], bindings[b]) && c != b ==> Before(bindings, b, c)
  }

  function Deduplicated(bindings: map<int, Binding>): map<int, Binding> {
    map b | b in bindings && FirstOfScope(bindings, b) :: bindings[b].(mode := None)
  }

  /** `COALESCE(ssh_key_id, -1)` in the unique index. */
  function Coalesced(key: Option<int>): int { if key.Some? then key.value else -1 }

  predicate UniqueScopes(bindings: map<int, Binding>) {
    forall a, b :: a in bindings && b in bindings && bindings[a].person == bindings[b].person
      && Coalesced(bindings[a].key) == Coalesced(bindings[b].key) && bindings[a].account == bindings[b].account
      ==> a == b
  }

  ghost predicate KeysExist(keys: map<int, Key>, bindings: map<int, Binding>) {
    && -1 !in keys
    && forall b :: b in bindings && bindings[b].key.Some? ==> bindings[b].key.value in keys
  }

  /** The order of the rows is total, antisymmetric and transitive. */
  lemma OrderOfRows(bindings: map<int, Binding>, a: int, b: int, c: int)
    requires a in bindings && b in bindings && c in bindings
    ensures a != b ==> (Before(bindings, a, b) <==> !Before(bindings, b, a))
    ensures Before(bindings, a, b) && Before(bindings, b, c) ==> Before(bindings, a, c)
  {}

  lemma {:induction false} FirstExists(bindings: map<int, Binding>, ids: set<int>) returns (first: int)
    requires ids != {} && ids <= bindings.Keys
    ensures first in ids
    ensures forall c :: c in ids && c != first ==> Before(bindings, first, c)
    decreases |ids|
  {
    assert (forall x :: x !in ids) ==> ids == {};
    first :| first in ids;
    var rest := ids - {first};
    if rest != {} {
      var other := FirstExists(bindings, rest);
      if Before(bindings, other, first) {
        first := other;
      } else {
        forall c | c in rest ensures Before(bindings, first, c) {
          OrderOfRows(bindings, first, other, c);
        }
      }
    }
  }

  lemma ScopeHasFirst(bindings: map<int, Binding>, b: int) returns (first: int)
    requires b in bindings
    ensures first in bindings && SameScope(bindings[first], bindings[b]) && FirstOfScope(bindings, first)
    ensures bindings[b].enabled ==> bindings[first].enabled
  {
    var scope := set c | c in bindings && SameScope(bindings[c], bindings[b]);
    assert b in scope;
    first := FirstExists(bindings, scope);
  }

  lemma DeduplicationKeepsGrant(bindings: map<int, Binding>, p: int, k: Option<int>, u: string)
    ensures Granted(Deduplicated(bindings), p, k, u) <==> Granted(bindings, p, k, u)
  {
    var kept := Deduplicated(bindings);
    if Granted(bindings, p, k, u) {
      var b :| b in bindings && bindings[b].enabled && bindings[b].person == p && bindings[b].key == k
               && bindings[b].account == u;
      var first := ScopeHasFirst(bindings, b);
      assert first in kept && kept[first].enabled;
    }
    if Granted(kept, p, k, u) {
      var b :| b in kept && kept[b].enabled && kept[b].person == p && kept[b].key == k && kept[b].account == u;
      assert b in bindings && bindings[b].enabled;
    }
  }

  /** Removing duplicates keeps exactly the enabled grants and exactly the scopes, and leaves
      one row for each scope, so the unique index can be built. */
  lemma DeduplicationKeepsGrants(keys: map<int, Key>, bindings: map<int, Binding>)
    requires KeysExist(keys, bindings)
    ensures forall p, k, u :: Granted(Deduplicated(bindings), p, k, u) <==> Granted(bindings, p, k, u)
    ensures forall b :: b in bindings ==>
      exists c :: c in Deduplicated(bindings) && SameScope(Deduplicated(bindings)[c], bindings[b])
    ensures forall b :: b in Deduplicated(bindings) ==> b in bindings
    ensures UniqueScopes(Deduplicated(bindings))
  {
    var kept := Deduplicated(bindings);
    forall b | b in bindings ensures exists c :: c in kept && SameScope(kept[c], bindings[b]) {
      var first := ScopeHasFirst(bindings, b);
      assert first in kept && SameScope(kept[first], bindings[b]);
    }
    forall p, k, u ensures Granted(kept, p, k, u) <==> Granted(bindings, p, k, u) {
      DeduplicationKeepsGrant(bindings, p, k, u);
    }
    OneRowPerScope(keys, bindings);
  }

  lemma OneRowPerScope(keys: map<int, Key>, bindings: map<int, Binding>)
    requires KeysExist(keys, bindings)
    ensures UniqueScopes(Deduplicated(bindings))
  {
    var kept := Deduplicated(bindings);
    forall a, b | a in kept && b in kept && kept[a].person == kept[b].person
      && Coalesced(kept[a].key) == Coalesced(kept[b].key) && kept[a].account == kept[b].account
      ensures a == b
    {
      assert SameScope(bindings[a], bindings[b]);
      OrderOfRows(bindings, a, b, a);
    }
  }

  // ---------- migration 5: at most one account per person ----------

  function AccountsOf(bindings: map<int, Binding>, person: int): set<string> {
    set b | b in bindings && bindings[b].enabled && bindings[b].person == person :: bindings[b].account
  }

  function OwnersOf(bindings: map<int, Binding>, account: string): set<int> {
    set b | b in bindings && bindings[b].enabled && bindings[b].account == account :: bindings[b].person
  }

  /** The least element where there is just one. */
  function OnlyOf(s: set<string>): (x: string)
    requires |s| == 1
    ensures s == {x}
  {
    assert (forall x :: x !in s) ==> s == {};
    assert forall x, y :: x in s && y in s ==> x == y by {
      forall x, y | x in s && y in s ensures x == y { SingletonElements(s, x, y); }
    }
    var x :| x in s;
    assert |s - {x}| == 0;
    x
  }

  /** The UPDATE of the fifth migration. */
  function AssignedAccount(bindings: map<int, Binding>, person: int): Option<string> {
    var accounts := AccountsOf(bindings, person);
    if |accounts| == 1 && |OwnersOf(bindings, OnlyOf(accounts))| == 1 then Some(OnlyOf(accounts)) else None
  }

  function WithAccounts(persons: map<int, Person>, bindings: map<int, Binding>): map<int, Person> {
    map p | p in persons :: persons[p].(account := AssignedAccount(bindings, p))
  }

  ghost predicate SoleHolder(bindings: map<int, Binding>, person: int, account: string) {
    && Holds(bindings, person, account)
    && (forall u :: Holds(bindings, person, u) ==> u == account)
    && (forall q :: Holds(bindings, q, account) ==> q == person)
  }

  lemma SetSizes(bindings: map<int, Binding>, person: int, account: string)
    ensures account in AccountsOf(bindings, person) <==> Holds(bindings, person, account)
    ensures person in OwnersOf(bindings, account) <==> Holds(bindings, person, account)
  {}

  lemma SingletonSize<T>(s: set<T>, x: T)
    requires x in s && forall y :: y in s ==> y == x
    ensures |s| == 1
  {
    assert s == {x};
  }

  lemma SingletonElements<T>(s: set<T>, x: T, y: T)
    requires |s| == 1 && x in s && y in s
    ensures x == y
  {
    assert |s - {x}| == 0;
    assert y !in s - {x};
  }

  lemma AssignsSoleHolder(bindings: map<int, Binding>, person: int, account: string)
    ensures AssignedAccount(bindings, person) == Some(account) <==> SoleHolder(bindings, person, account)
  {
    var accounts, owners := AccountsOf(bindings, person), OwnersOf(bindings, account);
    forall u ensures u in accounts <==> Holds(bindings, person, u) { SetSizes(bindings, person, u); }
    forall q ensures q in owners <==> Holds(bindings, q, account) { SetSizes(bindings, q, account); }
    if SoleHolder(bindings, person, account) {
      SingletonSize(accounts, account);
      SingletonSize(owners, person);
      assert account in accounts;
    }
    if AssignedAccount(bindings, person) == Some(account) {
      assert accounts == {account};
      assert account in accounts;
      forall q | Holds(bindings, q, account) ensures q == person {
        SingletonElements(owners, q, person);
      }
    }
  }

  lemma AssignedAccountsAreUnique(persons: map<int, Person>, bindings: map<int, Binding>)
    ensures UniqueAccounts(WithAccounts(persons, bindings))
  {
    var updated := WithAccounts(persons, bindings);
    forall p, q | p in updated && q in updated && updated[p].account.Some?
      && updated[p].account == updated[q].account ensures p == q
    {
      AssignsSoleHolder(bindings, p, updated[p].account.value);
      AssignsSoleHolder(bindings, q, updated[p].account.value);
    }
  }

  // ---------- the five scripts ----------

  /** The columns that the fifth migration adds to `tests`. */
  function WithTestDefaults(tests: map<string, Test>): map<string, Test> {
    map i | i in tests :: tests[i].(questionLimit := None, shuffleQuestions := true, shuffleChoices := true)
  }

  /** Each script, failing where a unique index cannot be built. */
  function Script(version: int, t: Tables): Step {
    if version == 1 then Ok(t.(db := EMPTY, bindings := map[]))
    else if version == 2 then
      Ok(t.(bindings := map b | b in t.bindings :: t.bindings[b].(bank := Some(LEGACY_BANK_ID))))
    else if version == 3 then
      (var kept := Deduplicated(t.bindings);
       if UniqueScopes(kept) then Ok(t.(bindings := kept)) else Err(IndexNotUnique))
    else if version == 4 then
      (var copied := map b | b in t.bindings :: t.bindings[b].(bank := None);
       var attempts := map a | a in t.db.attempts :: t.db.attempts[a].(exam := None);
       var db := EMPTY.(persons := t.db.persons, keys := t.db.keys, attempts := attempts);
       if UniqueScopes(copied) then Ok(t.(db := db, bindings := copied)) else Err(IndexNotUnique))
    else
      (var persons := WithAccounts(t.db.persons, t.bindings);
       var tests := WithTestDefaults(t.db.tests);
       if UniqueAccounts(persons) then Ok(t.(db := t.db.(persons := persons, tests := tests), bindings := map[]))
       else Err(IndexNotUnique))
  }

  function Applied(version: int, t: Tables): Step {
    if version in t.applied then Ok(t)
    else
      match Script(version, t)
      case Err(e) => Err(e)
      case Ok(next) => Ok(next.(applied := next.applied + {version}))
  }

  function AppliedFrom(version: int, t: Tables): Step
    decreases CURRENT_VERSION + 1 - version
  {
    if version > CURRENT_VERSION then Ok(t)
    else
      match Applied(version, t)
      case Err(e) => Err(e)
      case Ok(next) => AppliedFrom(version + 1, next)
  }

  /** `Db::initialize`: all missing migrations in one transaction. */
  function Initialized(t: Tables): Step {
    if exists v :: v in t.applied && v > CURRENT_VERSION then Err(NewerSchema) else AppliedFrom(1, t)
  }

  // ---------- databases written by a version ----------

  ghost function Versions(n: nat): (versions: set<int>)
    ensures forall v :: v in versions <==> 1 <= v <= n
  {
    if n == 0 then {} else Versions(n - 1) + {n}
  }

  /** What the constraints of version `n` guarantee. Keys have row ids that SQLite chose, so -1
      is none of them. */
  ghost predicate WrittenBy(n: nat, t: Tables) {
    && t.applied == Versions(n)
    && (n == 0 ==> t.db == EMPTY && t.bindings == map[])
    && KeysExist(t.db.keys, t.bindings)
    && UniqueFingerprints(t.db.keys)
    && References(t.db) && UniqueExams(t.db.publications)
    && (n <= 3 ==> NoTests(t.db))
    && (3 <= n <= 4 ==> UniqueScopes(t.bindings))
  }

  /** The same attempts, up to the exam that the fourth version adds to them. */
  ghost predicate SameAttempts(attempts: map<int, Attempt>, attempts': map<int, Attempt>) {
    && attempts'.Keys == attempts.Keys
    && forall a :: a in attempts ==>
         && attempts'[a].person == attempts[a].person && attempts'[a].score == attempts[a].score
         && attempts'[a].total == attempts[a].total && attempts'[a].passed == attempts[a].passed
         && attempts'[a].answers == attempts[a].answers
  }

  /** The same grants, people, keys and attempts. */
  ghost predicate SameAccess(t: Tables, t': Tables) {
    && t'.db.persons == t.db.persons && t'.db.keys == t.db.keys
    && SameAttempts(t.db.attempts, t'.db.attempts)
    && (forall p, u :: Holds(t'.bindings, p, u) <==> Holds(t.bindings, p, u))
  }

  lemma GrantsDecideHolding(bindings: map<int, Binding>, bindings': map<int, Binding>)
    requires forall p, k, u :: Granted(bindings, p, k, u) <==> Granted(bindings', p, k, u)
    ensures forall p, u :: Holds(bindings, p, u) <==> Holds(bindings', p, u)
  {
    forall p, u ensures Holds(bindings, p, u) <==> Holds(bindings', p, u) {
      if Holds(bindings, p, u) {
        var b :| b in bindings && bindings[b].enabled && bindings[b].person == p && bindings[b].account == u;
        assert Granted(bindings', p, bindings[b].key, u);
      }
      if Holds(bindings', p, u) {
        var b :| b in bindings' && bindings'[b].enabled && bindings'[b].person == p && bindings'[b].account == u;
        assert Granted(bindings, p, bindings'[b].key, u);
      }
    }
  }

  lemma SameRowsSameGrants(bindings: map<int, Binding>, bindings': map<int, Binding>)
    requires bindings.Keys == bindings'.Keys
    requires forall b :: b in bindings ==>
      SameScope(bindings[b], bindings'[b]) && bindings[b].enabled == bindings'[b].enabled
    ensures forall p, u :: Holds(bindings, p, u) <==> Holds(bindings', p, u)
  {
    forall p, u ensures Holds(bindings, p, u) <==> Holds(bindings', p, u) {
      if Holds(bindings, p, u) {
        var b :| b in bindings && bindings[b].enabled && bindings[b].person == p && bindings[b].account == u;
        assert b in bindings' && bindings'[b].enabled;
      }
      if Holds(bindings', p, u) {
        var b :| b in bindings' && bindings'[b].enabled && bindings'[b].person == p && bindings'[b].account == u;
        assert b in bindings && bindings[b].enabled;
      }
    }
  }

  /** `t'` is `t` after the script of version `n + 1` with the same access. */
  ghost predicate Advanced(n: nat, t: Tables, t': Tables) {
    && Applied(n + 1, t) == Ok(t')
    && WrittenBy(n + 1, t') && SameAccess(t, t') && NoTests(t'.db)
  }

  lemma SecondMigration(t: Tables) returns (t': Tables)
    requires WrittenBy(1, t)
    ensures Advanced(1, t, t')
  {
    t' := Applied(2, t).value;
    assert Versions(2) == Versions(1) + {2};
    SameRowsSameGrants(t.bindings, t'.bindings);
  }

  lemma ThirdMigration(t: Tables) returns (t': Tables)
    requires WrittenBy(2, t)
    ensures Advanced(2, t, t')
  {
    DeduplicationKeepsGrants(t.db.keys, t.bindings);
    t' := Applied(3, t).value;
    assert Versions(3) == Versions(2) + {3};
    GrantsDecideHolding(t.bindings, t'.bindings);
  }

  lemma FourthMigration(t: Tables) returns (t': Tables)
    requires WrittenBy(3, t)
    ensures Advanced(3, t, t')
    ensures forall a :: a in t'.db.attempts ==> t'.db.attempts[a].exam == None
  {
    var copied := map b | b in t.bindings :: t.bindings[b].(bank := None);
    assert UniqueScopes(copied);
    t' := Applied(4, t).value;
    assert Versions(4) == Versions(3) + {4};
    SameRowsSameGrants(t.bindings, copied);
  }

  /** Migrations 2 to 4 succeed and keep every grant. */
  lemma MigrationStep(n: nat, t: Tables) returns (t': Tables)
    requires 1 <= n <= 3 && WrittenBy(n, t)
    ensures Advanced(n, t, t')
    ensures n == 3 ==> forall a :: a in t'.db.attempts ==> t'.db.attempts[a].exam == None
  {
    if n == 1 {
      t' := SecondMigration(t);
    } else if n == 2 {
      t' := ThirdMigration(t);
    } else {
      t' := FourthMigration(t);
    }
  }

  /** The first migration creates the empty tables. */
  lemma FirstMigration(t: Tables)
    requires WrittenBy(0, t)
    ensures Applied(1, t).Ok? && WrittenBy(1, Applied(1, t).value) && SameAccess(t, Applied(1, t).value)
  {
    assert Versions(1) == Versions(0) + {1};
  }

  lemma {:induction false} SkipsApplied(v: int, n: nat, t: Tables)
    requires 1 <= v <= n + 1 <= 6 && t.applied == Versions(n)
    ensures AppliedFrom(v, t) == AppliedFrom(n + 1, t)
    decreases n + 1 - v
  {
    if v <= n {
      SkipsApplied(v + 1, n, t);
    }
  }

  /** From any version up to 3, the remaining scripts lead to version 4 with the same access. */
  lemma {:induction false} MigratesToFour(n: nat, t: Tables) returns (t': Tables)
    requires n <= 4 && WrittenBy(n, t)
    ensures AppliedFrom(n + 1, t) == AppliedFrom(5, t')
    ensures WrittenBy(4, t') && SameAccess(t, t')
    ensures n == 4 ==> t' == t
    ensures n <= 3 ==> NoTests(t'.db) && forall a :: a in t'.db.attempts ==> t'.db.attempts[a].exam == None
    decreases 4 - n
  {
    if n == 4 {
      t' := t;
    } else {
      var next: Tables;
      if n == 0 {
        FirstMigration(t);
        next := Applied(1, t).value;
      } else {
        next := MigrationStep(n, t);
      }
      t' := MigratesToFour(n + 1, next);
      assert AppliedFrom(n + 1, t) == AppliedFrom(n + 2, next);
    }
  }

  /** Every test has its old columns, no question limit, and both shuffles on. */
  ghost predicate GainsOptions(tests: map<string, Test>, tests': map<string, Test>) {
    && tests'.Keys == tests.Keys
    && forall id :: id in tests ==>
         && tests'[id].title == tests[id].title && tests'[id].bankIds == tests[id].bankIds
         && tests'[id].threshold == tests[id].threshold && tests'[id].maxAttempts == tests[id].maxAttempts
         && tests'[id].questionLimit == None && tests'[id].shuffleQuestions && tests'[id].shuffleChoices
  }

  /** The fifth migration, on a version 4 database. */
  lemma FifthMigration(t: Tables)
    requires WrittenBy(4, t)
    ensures AppliedFrom(5, t).Ok?
    ensures var t' := AppliedFrom(5, t).value;
      && t'.applied == Versions(5) && Constraints(t'.db)
      && t'.db.persons == WithAccounts(t.db.persons, t.bindings)
      && t'.db.keys == t.db.keys && t'.db.publications == t.db.publications && t'.db.active == t.db.active
      && t'.db.attempts == t.db.attempts && t'.db.passes == t.db.passes
      && GainsOptions(t.db.tests, t'.db.tests)
  {
    AssignedAccountsAreUnique(t.db.persons, t.bindings);
    assert Versions(5) == Versions(4) + {5};
    assert AppliedFrom(6, Applied(5, t).value) == Applied(5, t);
  }

  /** Migrating a database of any version 0 to 4 always succeeds. A person owns an account
      afterwards exactly if it was the person's only enabled account and no other person had it
      enabled; names, keys and attempts stay; and every constraint of version 5 holds. */
  lemma MigrationAssignsSoleAccounts(n: nat, t: Tables, person: int, account: string)
    requires n <= 4 && WrittenBy(n, t)
    ensures Initialized(t).Ok?
    ensures var t' := Initialized(t).value;
      && t'.applied == Versions(5) && Constraints(t'.db)
      && t'.db.persons.Keys == t.db.persons.Keys && t'.db.keys == t.db.keys
      && SameAttempts(t.db.attempts, t'.db.attempts)
      && (person in t.db.persons ==>
            && t'.db.persons[person].(account := None) == t.db.persons[person].(account := None)
            && (t'.db.persons[person].account == Some(account) <==> SoleHolder(t.bindings, person, account)))
  {
    assert !exists v :: v in t.applied && v > CURRENT_VERSION;
    SkipsApplied(1, n, t);
    var four := MigratesToFour(n, t);
    FifthMigration(four);
    AssignsSoleHolder(four.bindings, person, account);
    assert SoleHolder(four.bindings, person, account) <==> SoleHolder(t.bindings, person, account);
  }

  /** From version 4 only the fifth script runs. */
  lemma FourIsMigrated(t: Tables)
    requires WrittenBy(4, t)
    ensures Initialized(t).Ok?
    ensures var db := Initialized(t).value.db;
      && Constraints(db)
      && db.publications == t.db.publications && db.active == t.db.active
      && db.attempts == t.db.attempts && db.passes == t.db.passes && GainsOptions(t.db.tests, db.tests)
  {
    assert !exists v :: v in t.applied && v > CURRENT_VERSION;
    SkipsApplied(1, 4, t);
    FifthMigration(t);
  }

  /** Initializing twice changes nothing the second time. */
  lemma InitializeIsIdempotent(n: nat, t: Tables)
    requires n <= 4 && WrittenBy(n, t)
    ensures Initialized(t).Ok? && Initialized(Initialized(t).value) == Initialized(t)
  {
    MigrationAssignsSoleAccounts(n, t, 0, "");
    var t' := Initialized(t).value;
    assert !exists v :: v in t'.applied && v > CURRENT_VERSION;
    SkipsApplied(1, 5, t');
  }

  /** A database from version 3 or earlier has no tests after the migration, and its attempts
      belong to no exam: the starting point of the exam gate. */
  lemma MigratedHasNoExams(n: nat, t: Tables)
    requires n <= 3 && WrittenBy(n, t)
    ensures Initialized(t).Ok?
    ensures var db := Initialized(t).value.db;
      Constraints(db) && NoTests(db) && forall a :: a in db.attempts ==> db.attempts[a].exam == None
  {
    MigrationAssignsSoleAccounts(n, t, 0, "");
    SkipsApplied(1, n, t);
    var four := MigratesToFour(n, t);
    FifthMigration(four);
  }

  // ---------- the migration loop ----------

  /** The database file. `Initialize` works in one transaction: the tables are replaced only
      when every script has succeeded. */
  class SchemaFile {
    var tables: Tables

    constructor (t: Tables)
      ensures tables == t
    {
      tables := t;
    }

    method Initialize() returns (r: Result<(), MigrationError>)
      modifies this
      ensures r.Ok? <==> Initialized(old(tables)).Ok?
      ensures tables == if r.Ok? then Initialized(old(tables)).value else old(tables)
    {
      if exists v :: v in tables.applied && v > CURRENT_VERSION {
        return Err(NewerSchema);
      }
      var transaction := tables;
      var version := 1;
      ghost var goal := AppliedFrom(version, transaction);
      while version <= CURRENT_VERSION
        invariant 1 <= version <= 6
        invariant AppliedFrom(version, transaction) == goal
      {
        if version !in transaction.applied {
          var step := Script(version, transaction);
          if step.Err? {
            return Err(step.error);
          }
          transaction := step.value.(applied := step.value.applied + {version});
        }
        version := version + 1;
      }
      tables := transaction;
      r := Ok(());
    }
  }
}
