/** Secrets and their numbered versions (repository/repository.go, handlers/secretmanager.go). */
module Secrets {
  import opened Wrappers
  import opened Json
  import opened Tables
  import opened Text
  import opened References
  import opened Merge
  import opened Requests
  import opened Compute

  /** `rowid` is the table-wide row number the store assigns: one more than the largest in use. */
  datatype VersionRow = VersionRow(rowid: nat, project: string, secret: string, data: Document)

  /** Secrets by (project, short name), versions by full resource name. */
  datatype SecretDb = SecretDb(secrets: map<GlobalKey, Document>, versions: map<string, VersionRow>)

  const NO_SECRETS := SecretDb(map[], map[])

  datatype SecretOp =
    | CreateSecret(project: string, data: Document, env: Env)
    | UpdateSecret(project: string, name: string, patch: Document)
    | DeleteSecret(project: string, name: string)
    | AddVersion(project: string, secret: string, body: Document, env: Env)
    | EnableVersion(project: string, secret: string, version: string)
    | DisableVersion(project: string, secret: string, version: string)
    | DestroyVersion(project: string, secret: string, version: string, env: Env)

  const ENABLED := "ENABLED"
  const DISABLED := "DISABLED"
  const DESTROYED := "DESTROYED"

  function SecretPath(project: string, secret: string): string {
    Join(["projects", project, "secrets", secret], '/')
  }

  function VersionName(project: string, secret: string, version: string): string {
    Join(["projects", project, "secrets", secret, "versions", version], '/')
  }

  // ------------------------------------------------------------ row numbers

  predicate Belongs(row: VersionRow, project: string, secret: string) {
    row.project == project && row.secret == secret
  }

  /** The largest row number among the versions of one secret; 0 when it has none. */
  ghost predicate IsMaxOfSecret(versions: map<string, VersionRow>, project: string, secret: string, max: nat) {
    && (forall n :: n in versions && Belongs(versions[n], project, secret) ==> versions[n].rowid <= max)
    && (max == 0 || exists n :: n in versions && Belongs(versions[n], project, secret) && versions[n].rowid == max)
  }

  /** The largest row number in the table; 0 when it is empty. */
  ghost predicate IsMaxOfTable(versions: map<string, VersionRow>, max: nat) {
    && (forall n :: n in versions ==> versions[n].rowid <= max)
    && (max == 0 || exists n :: n in versions && versions[n].rowid == max)
  }

  lemma {:induction false} SecretMaxExists(versions: map<string, VersionRow>, project: string, secret: string)
    ensures exists max: nat :: IsMaxOfSecret(versions, project, secret, max)
  {
    if versions == map[] {
      assert IsMaxOfSecret(versions, project, secret, 0);
    } else {
      var n :| n in versions;
      var rest := versions - {n};
      SecretMaxExists(rest, project, secret);
      var max: nat :| IsMaxOfSecret(rest, project, secret, max);
      var row := versions[n];
      var bigger := if Belongs(row, project, secret) && row.rowid > max then row.rowid else max;
      assert forall m :: m in versions && m != n ==> m in rest && rest[m] == versions[m];
      assert IsMaxOfSecret(versions, project, secret, bigger);
    }
  }

  lemma {:induction false} TableMaxExists(versions: map<string, VersionRow>)
    ensures exists max: nat :: IsMaxOfTable(versions, max)
  {
    if versions == map[] {
      assert IsMaxOfTable(versions, 0);
    } else {
      var n :| n in versions;
      var rest := versions - {n};
      TableMaxExists(rest);
      var max: nat :| IsMaxOfTable(rest, max);
      var bigger := if versions[n].rowid > max then versions[n].rowid else max;
      assert forall m :: m in versions && m != n ==> m in rest && rest[m] == versions[m];
      assert IsMaxOfTable(versions, bigger);
    }
  }

  ghost function MaxOfSecret(versions: map<string, VersionRow>, project: string, secret: string): (max: nat)
    ensures IsMaxOfSecret(versions, project, secret, max)
  {
    SecretMaxExists(versions, project, secret);
    var max: nat :| IsMaxOfSecret(versions, project, secret, max);
    max
  }

  ghost function MaxOfTable(versions: map<string, VersionRow>): (max: nat)
    ensures IsMaxOfTable(versions, max)
  {
    TableMaxExists(versions);
    var max: nat :| IsMaxOfTable(versions, max);
    max
  }

  lemma MaximaAreUnique(versions: map<string, VersionRow>, project: string, secret: string, a: nat, b: nat)
    ensures IsMaxOfSecret(versions, project, secret, a) && IsMaxOfSecret(versions, project, secret, b) ==> a == b
    ensures IsMaxOfTable(versions, a) && IsMaxOfTable(versions, b) ==> a == b
  {
  }

  // -------------------------------------------------------------- transitions

  /** A secret is named by `secretId`, else by the last segment of `name`. */
  function NewName(data: Document): string {
    if GetString(data, FSecretId) != "" then GetString(data, FSecretId) else ExtractName(GetString(data, FName))
  }

  function InsertSecret(db: SecretDb, project: string, data: Document, env: Env): Outcome<SecretDb> {
    var name := NewName(data);
    var key := GlobalKey(project, name);
    if name == "" then Fail(db, Required)
    else if key in db.secrets then Fail(db, AlreadyExists)
    else
      var stamped := data[FProject := Str(project)][FSecretId := Str(name)];
      var row := WithDefault(WithDefault(stamped, FName, SecretPath(project, name)), FCreateTime, env.now);
      Outcome(db.(secrets := db.secrets[key := row]), Ok(row))
  }

  function PatchSecret(db: SecretDb, project: string, name: string, patch: Document): Outcome<SecretDb> {
    var key := GlobalKey(project, name);
    if key !in db.secrets then Fail(db, NotFound)
    else
      var row := Merged(db.secrets[key], patch,
        {FName, FProject})[FProject := Str(project)][FName := Str(SecretPath(project, name))];
      Outcome(db.(secrets := db.secrets[key := row]), Ok(row))
  }

  /** ON DELETE CASCADE: the versions go with the secret. */
  function RemoveSecret(db: SecretDb, project: string, name: string): Outcome<SecretDb> {
    var key := GlobalKey(project, name);
    if key !in db.secrets then Fail(db, NotFound)
    else
      var left := map n | n in db.versions && !Belongs(db.versions[n], project, name) :: db.versions[n];
      Outcome(SecretDb(db.secrets - {key}, left), Ok(map[]))
  }

  /** The request body of addVersion carries a payload with string data. */
  predicate HasPayload(body: Document) {
    FPayload in body && body[FPayload].Obj? && FData in body[FPayload].fields && body[FPayload].fields[FData].Str?
  }

  /** A new version starts enabled, at the server's time. */
  function Enabled(body: Document, env: Env): Document {
    body[FState := Str(ENABLED)][FCreateTime := Str(env.now)]
  }

  function VersionData(project: string, secret: string, name: string, data: Document, env: Env): Document {
    WithDefault(data[FName := Str(name)][FProject := Str(project)][FSecretName := Str(secret)], FCreateTime, env.now)
  }

  /** The number is one more than the secret's largest row number; the row number is the table's next. */
  ghost function InsertVersionRow(db: SecretDb, project: string, secret: string, data: Document,
                                  env: Env): Outcome<SecretDb> {
    var number := MaxOfSecret(db.versions, project, secret) + 1;
    var name := VersionName(project, secret, Decimal(number));
    match InsertError(name in db.versions, GlobalKey(project, secret) in db.secrets)
    case Some(e) => Fail(db, e)
    case None =>
      var row := VersionData(project, secret, name, data, env);
      Outcome(db.(versions := db.versions[name := VersionRow(MaxOfTable(db.versions) + 1, project, secret, row)]),
        Ok(row))
  }

  /** The addVersion verb. */
  ghost function InsertVersion(db: SecretDb, project: string, secret: string, body: Document,
                               env: Env): Outcome<SecretDb> {
    if !HasPayload(body) then Fail(db, BadRequest)
    else InsertVersionRow(db, project, secret, Enabled(body, env), env)
  }

  predicate Destroyed(row: VersionRow) {
    GetString(row.data, FState) == DESTROYED
  }

  function SetState(db: SecretDb, name: string, state: string): Outcome<SecretDb> {
    if name !in db.versions then Fail(db, NotFound)
    else if Destroyed(db.versions[name]) then Fail(db, TerminalState)
    else
      var data := db.versions[name].data[FState := Str(state)];
      Outcome(db.(versions := db.versions[name := db.versions[name].(data := data)]), Ok(data))
  }

  function Destroy(db: SecretDb, name: string, now: string): Outcome<SecretDb> {
    if name !in db.versions then Fail(db, NotFound)
    else
      var data := db.versions[name].data[FState := Str(DESTROYED)][FDestroyTime := Str(now)] - {FPayload};
      Outcome(db.(versions := db.versions[name := db.versions[name].(data := data)]), Ok(data))
  }

  ghost function Apply(db: SecretDb, op: SecretOp): Outcome<SecretDb> {
    match op
    case CreateSecret(project, data, env) => InsertSecret(db, project, data, env)
    case UpdateSecret(project, name, patch) => PatchSecret(db, project, name, patch)
    case DeleteSecret(project, name) => RemoveSecret(db, project, name)
    case AddVersion(project, secret, body, env) => InsertVersion(db, project, secret, body, env)
    case EnableVersion(project, secret, version) => SetState(db, VersionName(project, secret, version), ENABLED)
    case DisableVersion(project, secret, version) => SetState(db, VersionName(project, secret, version), DISABLED)
    case DestroyVersion(project, secret, version, env) => Destroy(db, VersionName(project, secret, version), env.now)
  }

  // ------------------------------------------------------------------ reading

  /** The most recent version by row number. */
  ghost predicate IsLatest(db: SecretDb, project: string, secret: string, name: string) {
    && name in db.versions && Belongs(db.versions[name], project, secret)
    && forall n :: n in db.versions && Belongs(db.versions[n], project, secret) ==>
       db.versions[n].rowid <= db.versions[name].rowid
  }

  /** The stored version a path parameter stands for: a number, or "latest". */
  ghost predicate Designates(db: SecretDb, project: string, secret: string, version: string, name: string) {
    if version == "latest" then IsLatest(db, project, secret, name)
    else name in db.versions && name == VersionName(project, secret, version)
  }

  /** The answer of the access verb for a stored version: its name and its payload, or empty data. */
  function AccessResponse(data: Document): Document {
    (if FName in data then map[FName := data[FName]] else map[FName := Null])
      [FPayload := if FPayload in data && data[FPayload].Obj? then data[FPayload] else Obj(map[FData := Str("")])]
  }

  // --------------------------------------------------------------- invariants

  /** The number a version name ends in. */
  function Number(name: string): int {
    var parts := Split(name, '/');
    Value(parts[|parts| - 1])
  }

  predicate Numbered(name: string, row: VersionRow) {
    && SlashFree(row.project) && SlashFree(row.secret)
    && 1 <= Number(name) <= row.rowid
    && name == VersionName(row.project, row.secret, Decimal(Number(name)))
  }

  /** DESTROYED means no payload; any other state still carries one. */
  predicate StateFits(row: VersionRow) {
    if Destroyed(row) then FPayload !in row.data else HasPayload(row.data)
  }

  ghost predicate Valid(db: SecretDb) {
    && (forall n :: n in db.versions ==>
          && GlobalKey(db.versions[n].project, db.versions[n].secret) in db.secrets
          && Numbered(n, db.versions[n]) && StateFits(db.versions[n]))
    && (forall m, n :: m in db.versions && n in db.versions && m != n ==> db.versions[m].rowid != db.versions[n].rowid)
    && RowOrderIsNumberOrder(db)
  }

  /** Within one secret, row numbers and version numbers grow together. */
  ghost predicate RowOrderIsNumberOrder(db: SecretDb) {
    forall m, n ::
      m in db.versions && n in db.versions && Belongs(db.versions[m], db.versions[n].project, db.versions[n].secret) ==>
      (db.versions[m].rowid < db.versions[n].rowid <==> Number(m) < Number(n))
  }

  /** The router hands over path parameters without slashes. */
  predicate Routed(op: SecretOp) {
    op.AddVersion? ==> SlashFree(op.project) && SlashFree(op.secret)
  }

  lemma VersionNameParts(project: string, secret: string, number: nat)
    requires SlashFree(project) && SlashFree(secret)
    ensures Split(VersionName(project, secret, Decimal(number)), '/')
         == ["projects", project, "secrets", secret, "versions", Decimal(number)]
    ensures Number(VersionName(project, secret, Decimal(number))) == number
  {
    hide Join, Decimal, Split;
    ValueOfDecimal(number);
    assert SlashFree(Decimal(number));
    SplitJoin(["projects", project, "secrets", secret, "versions", Decimal(number)], '/');
  }

  lemma NextNumberIsNew(db: SecretDb, project: string, secret: string)
    requires Valid(db) && SlashFree(project) && SlashFree(secret)
    ensures var number := MaxOfSecret(db.versions, project, secret) + 1;
            var name := VersionName(project, secret, Decimal(number));
            && name !in db.versions
            && Number(name) == number
            && forall n :: n in db.versions && Belongs(db.versions[n], project, secret) ==> Number(n) < number
  {
    var number := MaxOfSecret(db.versions, project, secret) + 1;
    var name := VersionName(project, secret, Decimal(number));
    VersionNameParts(project, secret, number);
    hide VersionName, Number, Decimal;
    if name in db.versions {
      var row := db.versions[name];
      SameNameSameSecret(row.project, row.secret, project, secret, Number(name), number);
      assert false;
    }
  }

  /** Collision freedom: the number is above every number of the secret in use, although row numbers
      are shared with other secrets, so adding to an existing secret always succeeds. */
  lemma VersionNumbersNeverCollide(db: SecretDb, project: string, secret: string, body: Document, env: Env)
    requires Valid(db) && SlashFree(project) && SlashFree(secret)
    ensures var number := MaxOfSecret(db.versions, project, secret) + 1;
            var name := VersionName(project, secret, Decimal(number));
            var out := InsertVersion(db, project, secret, body, env);
            && name !in db.versions
            && Number(name) == number
            && (forall n :: n in db.versions && Belongs(db.versions[n], project, secret) ==> Number(n) < number)
            && (out.result.Ok? <==> HasPayload(body) && GlobalKey(project, secret) in db.secrets)
            && (out.result.Ok? ==> IsLatest(out.db, project, secret, name))
  {
    NextNumberIsNew(db, project, secret);
    hide Valid, VersionName, Number, Decimal, HasPayload, VersionData, Enabled;
  }

  lemma SameNameSameSecret(p: string, s: string, p': string, s': string, m: nat, n: nat)
    requires SlashFree(p) && SlashFree(s) && SlashFree(p') && SlashFree(s')
    requires VersionName(p, s, Decimal(m)) == VersionName(p', s', Decimal(n))
    ensures p == p' && s == s' && m == n
  {
    hide VersionName, Decimal, Number;
    VersionNameParts(p, s, m);
    VersionNameParts(p', s', n);
    var a := ["projects", p, "secrets", s, "versions", Decimal(m)];
    var b := ["projects", p', "secrets", s', "versions", Decimal(n)];
    assert a[1] == b[1] && a[3] == b[3];
  }

  /** After a version was added, the number to come follows on from its number exactly when, before it was
      added, no other secret had a version in a later row than the secret's own last. */
  lemma NumbersAreConsecutiveIff(db: SecretDb, project: string, secret: string, body: Document, env: Env)
    requires Valid(db) && SlashFree(project) && SlashFree(secret)
    requires InsertVersion(db, project, secret, body, env).result.Ok?
    ensures var after := InsertVersion(db, project, secret, body, env).db;
            var number := MaxOfSecret(db.versions, project, secret) + 1;
            MaxOfSecret(after.versions, project, secret) + 1 == number + 1
            <==> forall n :: n in db.versions && !Belongs(db.versions[n], project, secret) ==>
                 db.versions[n].rowid < number
  {
    VersionNumbersNeverCollide(db, project, secret, body, env);
    hide Valid, VersionName, Number, Decimal, HasPayload, VersionData, Enabled;
    var after := InsertVersion(db, project, secret, body, env).db;
    var name := VersionName(project, secret, Decimal(MaxOfSecret(db.versions, project, secret) + 1));
    assert IsMaxOfSecret(after.versions, project, secret, MaxOfTable(db.versions) + 1) by {
      assert after.versions[name].rowid == MaxOfTable(db.versions) + 1;
    }
    MaximaAreUnique(after.versions, project, secret, MaxOfTable(db.versions) + 1,
      MaxOfSecret(after.versions, project, secret));
  }

  /** Two secrets that take turns show the gap: the second version of the one that came second is number 3. */
  lemma TakingTurnsSkipsANumber(db: SecretDb, project: string, first: string, second: string, body: Document, env: Env)
    requires db.versions == map[] && HasPayload(body) && first != second
    requires SlashFree(project) && SlashFree(first) && SlashFree(second)
    requires GlobalKey(project, first) in db.secrets && GlobalKey(project, second) in db.secrets
    ensures var one := InsertVersion(db, project, first, body, env).db;
            var two := InsertVersion(one, project, second, body, env).db;
            && MaxOfSecret(db.versions, project, first) + 1 == 1
            && MaxOfSecret(one.versions, project, second) + 1 == 1
            && MaxOfSecret(two.versions, project, second) + 1 == 3
  {
    hide VersionName, Number, Decimal, HasPayload, VersionData, Enabled;
    assert Valid(db);
    var one := InsertVersion(db, project, first, body, env).db;
    VersionNumbersNeverCollide(db, project, first, body, env);
    InsertVersionKeepsValid(db, project, first, body, env);
    OnlyVersion(db, one, project, first, second);
    VersionNumbersNeverCollide(one, project, second, body, env);
    var name := VersionName(project, second, Decimal(1));
    var two := InsertVersion(one, project, second, body, env).db;
    assert two.versions[name].rowid == 2;
  }

  /** After the first version of all, its secret is at row 1 and every other secret at none. */
  lemma OnlyVersion(db: SecretDb, one: SecretDb, project: string, first: string, second: string)
    requires db.versions == map[] && first != second
    requires exists name, data :: one.versions == map[name := VersionRow(1, project, first, data)]
    ensures MaxOfTable(db.versions) == 0 && MaxOfSecret(db.versions, project, first) == 0
    ensures MaxOfTable(one.versions) == 1 && MaxOfSecret(one.versions, project, second) == 0
  {
    var name, data :| one.versions == map[name := VersionRow(1, project, first, data)];
    assert name in one.versions && one.versions[name].rowid == 1;
  }

  /** The latest version is the one with the greatest number. */
  lemma LatestHasTheGreatestNumber(db: SecretDb, project: string, secret: string, latest: string)
    requires Valid(db) && latest in db.versions && Belongs(db.versions[latest], project, secret)
    ensures IsLatest(db, project, secret, latest)
            <==> forall n :: n in db.versions && Belongs(db.versions[n], project, secret) ==>
                 Number(n) <= Number(latest)
  {
    hide Number;
  }

  /** A row above every other, numbered above the rest of its secret, fits in. */
  lemma NewRowKeepsValid(db: SecretDb, name: string, row: VersionRow)
    requires Valid(db) && name !in db.versions && Numbered(name, row) && StateFits(row)
    requires GlobalKey(row.project, row.secret) in db.secrets
    requires forall n :: n in db.versions ==> db.versions[n].rowid < row.rowid
    requires forall n :: n in db.versions && Belongs(db.versions[n], row.project, row.secret) ==>
             Number(n) < Number(name)
    ensures Valid(db.(versions := db.versions[name := row]))
  {
    hide Number, Numbered, StateFits;
  }

  /** A path parameter stands for one version at most: row numbers are distinct. */
  lemma OneVersionIsDesignated(db: SecretDb, project: string, secret: string, version: string, name: string)
    requires Valid(db) && Designates(db, project, secret, version, name)
    ensures forall n :: Designates(db, project, secret, version, n) ==> n == name
  {
    hide VersionName, Numbered, StateFits, RowOrderIsNumberOrder;
  }

  lemma NewVersionFitsItsState(project: string, secret: string, name: string, rowid: nat, body: Document, env: Env)
    requires HasPayload(body)
    ensures StateFits(VersionRow(rowid, project, secret, VersionData(project, secret, name, Enabled(body, env), env)))
  {
    StatesDiffer();
    hide ENABLED, DESTROYED;
  }

  lemma InsertVersionKeepsValid(db: SecretDb, project: string, secret: string, body: Document, env: Env)
    requires Valid(db) && SlashFree(project) && SlashFree(secret)
    ensures Valid(InsertVersion(db, project, secret, body, env).db)
  {
    hide Valid, SlashFree, VersionName, Number, Decimal, IsLatest, HasPayload, VersionData, StateFits, Enabled;
    VersionNumbersNeverCollide(db, project, secret, body, env);
    var out := InsertVersion(db, project, secret, body, env);
    if out.result.Ok? {
      var name := VersionName(project, secret, Decimal(MaxOfSecret(db.versions, project, secret) + 1));
      var row := out.db.versions[name];
      NewVersionFitsItsState(project, secret, name, row.rowid, body, env);
      MaximaInOrder(db.versions, project, secret);
      assert Numbered(name, row);
      hide Numbered;
      NewRowKeepsValid(db, name, row);
    }
  }

  lemma MaximaInOrder(versions: map<string, VersionRow>, project: string, secret: string)
    ensures MaxOfSecret(versions, project, secret) <= MaxOfTable(versions)
    ensures forall n :: n in versions ==> versions[n].rowid <= MaxOfTable(versions)
  {
  }

  lemma RewritingARowKeepsValid(db: SecretDb, name: string, data: Document)
    requires Valid(db) && name in db.versions && StateFits(db.versions[name].(data := data))
    ensures Valid(db.(versions := db.versions[name := db.versions[name].(data := data)]))
  {
    hide Number, VersionName, Decimal, StateFits;
  }

  lemma StatesDiffer()
    ensures ENABLED != DESTROYED && DISABLED != DESTROYED
  {
    assert |ENABLED| != |DESTROYED| && |DISABLED| != |DESTROYED|;
  }

  lemma SetStateKeepsValid(db: SecretDb, name: string, state: string)
    requires Valid(db) && state != DESTROYED
    ensures Valid(SetState(db, name, state).db)
  {
    hide Numbered;
    if name in db.versions && !Destroyed(db.versions[name]) {
      RewritingARowKeepsValid(db, name, db.versions[name].data[FState := Str(state)]);
    }
  }

  lemma DestroyKeepsValid(db: SecretDb, name: string, now: string)
    requires Valid(db)
    ensures Valid(Destroy(db, name, now).db)
  {
    hide Numbered;
    if name in db.versions {
      RewritingARowKeepsValid(db, name,
        db.versions[name].data[FState := Str(DESTROYED)][FDestroyTime := Str(now)] - {FPayload});
    }
  }

  lemma SecretsKeepValid(db: SecretDb, op: SecretOp)
    requires Valid(db) && (op.CreateSecret? || op.UpdateSecret? || op.DeleteSecret?)
    ensures Valid(Apply(db, op).db)
  {
    hide Number, Numbered, StateFits, VersionName, Decimal, Merged, SecretPath, ExtractName, InsertVersion, SetState,
         Destroy;
  }

  lemma StepKeepsValid(db: SecretDb, op: SecretOp)
    requires Valid(db) && Routed(op)
    ensures Valid(Apply(db, op).db)
  {
    hide VersionName, Decimal, InsertVersion, SetState, Destroy, InsertSecret, PatchSecret, RemoveSecret;
    StatesDiffer();
    match op
    case AddVersion(project, secret, body, env) => InsertVersionKeepsValid(db, project, secret, body, env);
    case EnableVersion(project, secret, version) =>
      SetStateKeepsValid(db, VersionName(project, secret, version), ENABLED);
    case DisableVersion(project, secret, version) =>
      SetStateKeepsValid(db, VersionName(project, secret, version), DISABLED);
    case DestroyVersion(project, secret, version, env) =>
      DestroyKeepsValid(db, VersionName(project, secret, version), env.now);
    case _ => SecretsKeepValid(db, op);
  }

  lemma RejectedStepChangesNothing(db: SecretDb, op: SecretOp)
    requires Apply(db, op).result.Err?
    ensures Apply(db, op).db == db
  {
    hide VersionName, Decimal, Merged, SecretPath, ExtractName, HasPayload, VersionData;
  }

  // ---------------------------------------------------------------- lifecycle

  /** What one version may become: destroyed for good, or still carrying the payload it had. */
  predicate Evolved(before: VersionRow, after: VersionRow) {
    && after.rowid == before.rowid && after.project == before.project && after.secret == before.secret
    && (Destroyed(before) ==> Destroyed(after))
    && (!Destroyed(after)
       ==> HasPayload(after.data) && HasPayload(before.data) && after.data[FPayload] == before.data[FPayload])
  }

  lemma SettingEvolves(db: SecretDb, written: string, state: string, name: string)
    requires Valid(db) && name in db.versions && state != DESTROYED
    ensures var db' := SetState(db, written, state).db;
            name in db'.versions && Evolved(db.versions[name], db'.versions[name])
  {
    hide Numbered, RowOrderIsNumberOrder, DESTROYED;
  }

  lemma DestroyingEvolves(db: SecretDb, written: string, now: string, name: string)
    requires Valid(db) && name in db.versions
    ensures var db' := Destroy(db, written, now).db;
            name in db'.versions && Evolved(db.versions[name], db'.versions[name])
  {
    hide Numbered, RowOrderIsNumberOrder, DESTROYED;
  }

  /** Deleting its secret is the only operation that ends a version. */
  lemma VersionsOnlyEvolve(db: SecretDb, op: SecretOp, name: string)
    requires Valid(db) && Routed(op) && name in db.versions
    requires op != DeleteSecret(db.versions[name].project, db.versions[name].secret)
    ensures var db' := Apply(db, op).db; name in db'.versions && Evolved(db.versions[name], db'.versions[name])
  {
    hide Number, VersionName, Decimal, Merged, SecretPath, ExtractName, VersionData, Numbered, RowOrderIsNumberOrder,
         SetState, Destroy;
    StatesDiffer();
    match op
    case AddVersion(project, secret, body, env) => VersionNumbersNeverCollide(db, project, secret, body, env);
    case EnableVersion(project, secret, version) =>
      SettingEvolves(db, VersionName(project, secret, version), ENABLED, name);
    case DisableVersion(project, secret, version) =>
      SettingEvolves(db, VersionName(project, secret, version), DISABLED, name);
    case DestroyVersion(project, secret, version, env) =>
      DestroyingEvolves(db, VersionName(project, secret, version), env.now, name);
    case _ =>
  }

  /** Access answers with the stored payload until the version is destroyed, then with empty data. */
  lemma AccessShowsThePayload(db: SecretDb, name: string)
    requires Valid(db) && name in db.versions
    ensures AccessResponse(db.versions[name].data)[FPayload]
         == if Destroyed(db.versions[name]) then Obj(map[FData := Str("")]) else db.versions[name].data[FPayload]
  {
    hide Numbered;
  }

  /** Deleting a secret just created brings back the tables as they were: no version can belong to it yet. */
  lemma DeletionUndoesCreation(db: SecretDb, op: SecretOp)
    requires Valid(db) && op.CreateSecret? && Apply(db, op).result.Ok?
    ensures Apply(Apply(db, op).db, DeleteSecret(op.project, NewName(op.data))) == Outcome(db, Ok(map[]))
  {
    hide NewName, SecretPath, Numbered, StateFits, RowOrderIsNumberOrder;
    var once, name := Apply(db, op).db, NewName(op.data);
    assert once.secrets - {GlobalKey(op.project, name)} == db.secrets;
    assert (map n | n in once.versions
      && !Belongs(once.versions[n], op.project, name) :: once.versions[n]) == db.versions;
  }

  /** A successful update of a secret repeated with the same patch changes nothing. */
  lemma UpdatesAreIdempotent(db: SecretDb, project: string, name: string, patch: Document)
    requires PatchSecret(db, project, name, patch).result.Ok?
    ensures var once := PatchSecret(db, project, name, patch); PatchSecret(once.db, project, name, patch) == once
  {
    hide SecretPath;
    var key := GlobalKey(project, name);
    var stamps: Document := map[FProject := Str(project), FName := Str(SecretPath(project, name))];
    StampedMergeIsIdempotent(db.secrets[key], patch, stamps.Keys, stamps);
    hide Merged;
    assert stamps.Keys == {FName, FProject};
    var row := PatchSecret(db, project, name, patch).result.value;
    assert row == Merged(db.secrets[key], patch, stamps.Keys) + stamps;
    assert Merged(row, patch, stamps.Keys)[FProject := Str(project)][FName := Str(SecretPath(project, name))] == row;
    RewritingIsIdempotent(db.secrets, key, row);
  }

  // ------------------------------------------------ outcomes, read off the request

  lemma PathText(project: string, secret: string, more: seq<string>)
    ensures Join(["projects", project, "secrets"] + ([secret] + more), '/') ==
            "projects" + ("/" + (project + ("/" + ("secrets" + ("/" + Join([secret] + more, '/'))))))
  {
    var tail := [secret] + more;
    JoinMore("projects", [project, "secrets"] + tail, '/');
    JoinMore(project, ["secrets"] + tail, '/');
    JoinMore("secrets", tail, '/');
    assert ["projects", project, "secrets"] + tail == ["projects"] + ([project, "secrets"] + tail);
    assert [project, "secrets"] + tail == [project] + (["secrets"] + tail);
    hide Join;
  }

  /** The names of secrets and versions, spelt out. */
  lemma NamesSpeltOut(project: string, secret: string, version: string)
    ensures SecretPath(project, secret) == "projects" + ("/" + (project + ("/" + ("secrets" + ("/" + secret)))))
    ensures VersionName(project, secret, version) ==
            "projects" + ("/" + (project + ("/" + ("secrets" + ("/" + (secret + ("/" + ("versions" +
              ("/" + version)))))))))
  {
    PathText(project, secret, []);
    PathText(project, secret, ["versions", version]);
    JoinMore(secret, ["versions", version], '/');
    JoinMore("versions", [version], '/');
    assert Join([version], '/') == version && Join([secret], '/') == secret;
    hide Join;
    assert ["projects", project, "secrets"] + ([secret] + []) == ["projects", project, "secrets", secret];
    assert [secret] + [] == [secret];
    assert ["versions"] + [version] == ["versions", version];
    assert ["projects", project, "secrets"] + ([secret] + ["versions", version])
        == ["projects", project, "secrets", secret, "versions", version];
  }

  /** The state of a version after enabling or disabling it, and of no other version and no other field. */
  predicate StateSet(before: SecretDb, out: Outcome<SecretDb>, name: string, state: string) {
    && name in before.versions
    && out.result.Ok? && Says(out.result.value, FState, state)
    && SameElsewhere(out.result.value, before.versions[name].data, {FState})
    && out.db == before.(versions := before.versions[name := before.versions[name].(data := out.result.value)])
  }

  /** Enabling makes a version that is not destroyed "ENABLED", disabling makes it "DISABLED", from whichever
      of the two it was in; a destroyed version stays as it is, and a missing one is not found. */
  lemma EnablingAndDisabling(db: SecretDb, project: string, secret: string, version: string)
    ensures var name := VersionName(project, secret, version);
            var enabled := Apply(db, EnableVersion(project, secret, version));
            var disabled := Apply(db, DisableVersion(project, secret, version));
            if name !in db.versions then
              enabled == Outcome(db, Err(NotFound)) && disabled == Outcome(db, Err(NotFound))
            else if FState in db.versions[name].data && db.versions[name].data[FState] == Str("DESTROYED") then
              enabled == Outcome(db, Err(TerminalState)) && disabled == Outcome(db, Err(TerminalState))
            else
              StateSet(db, enabled, name, "ENABLED") && StateSet(db, disabled, name, "DISABLED")
  {
    hide VersionName;
    assert DESTROYED != "";
    var name := VersionName(project, secret, version);
    if name in db.versions { StringUnder(db.versions[name].data, FState, DESTROYED); }
  }

  /** Destroying sets state and time, drops the payload and touches nothing else; it may be repeated. */
  lemma Destroying(db: SecretDb, project: string, secret: string, version: string, env: Env)
    ensures var name := VersionName(project, secret, version);
            var out := Apply(db, DestroyVersion(project, secret, version, env));
            && (name !in db.versions ==> out == Outcome(db, Err(NotFound)))
            && (name in db.versions ==>
                && out.result.Ok? && Says(out.result.value, FState, "DESTROYED")
                   && Says(out.result.value, FDestroyTime, env.now)
                && FPayload !in out.result.value
                && SameElsewhere(out.result.value, db.versions[name].data, {FState, FDestroyTime, FPayload})
                && out.db == db.(versions := db.versions[name := db.versions[name].(data := out.result.value)]))
  {
    hide VersionName;
  }

  /** Adding needs a payload with a data string and an existing secret. The version starts "ENABLED" at the
      server's time, names itself, and keeps everything else of the body, the payload above all. */
  lemma AddingAVersion(db: SecretDb, project: string, secret: string, body: Document, env: Env)
    requires Valid(db) && SlashFree(project) && SlashFree(secret)
    ensures var name := VersionName(project, secret, Decimal(MaxOfSecret(db.versions, project, secret) + 1));
            var out := Apply(db, AddVersion(project, secret, body, env));
            var paid := FPayload in body && body[FPayload].Obj? && FData in body[FPayload].fields
              && body[FPayload].fields[FData].Str?;
            && (out.result.Ok? <==> paid && GlobalKey(project, secret) in db.secrets)
            && (out.result.Err? ==> out == Outcome(db, Err(if paid then NotFound else BadRequest)))
            && (out.result.Ok? ==>
                && name !in db.versions
                && out.db == db.(versions := db.versions[name :=
                               VersionRow(MaxOfTable(db.versions) + 1, project, secret, out.result.value)])
                && WrittenFor(out.result.value, body,
                              map[FState := Str("ENABLED"), FCreateTime := Str(env.now), FName := Str(name),
                                  FProject := Str(project), FSecretName := Str(secret)], map[]))
  {
    hide VersionName, Decimal, Valid, SlashFree, VersionData, Enabled, WrittenFor, MaxOfSecret, MaxOfTable, Number;
    NextNumberIsNew(db, project, secret);
    VersionIsWritten(project, secret,
      VersionName(project, secret, Decimal(MaxOfSecret(db.versions, project, secret) + 1)), body, env);
  }

  lemma VersionIsWritten(project: string, secret: string, name: string, body: Document, env: Env)
    ensures WrittenFor(VersionData(project, secret, name, Enabled(body, env), env), body,
                       map[FState := Str("ENABLED"), FCreateTime := Str(env.now), FName := Str(name),
                           FProject := Str(project), FSecretName := Str(secret)], map[])
  {
  }

  /** A secret is named by its `secretId`, else by the last segment of its name. */
  lemma SecretCreation(db: SecretDb, project: string, data: Document, env: Env)
    ensures var id := GetString(data, FSecretId);
            var name := if id != "" then id else ExtractName(GetString(data, FName));
            var key, out := GlobalKey(project, name), Apply(db, CreateSecret(project, data, env));
            && (out.result.Ok? <==> name != "" && key !in db.secrets)
            && (out.result.Err? ==> out == Outcome(db, Err(if name == "" then Required else AlreadyExists)))
            && (out.result.Ok? ==>
                && out.db == db.(secrets := db.secrets[key := out.result.value])
                && WrittenFor(out.result.value, data, map[FProject := Str(project), FSecretId := Str(name)],
                              map[FName := Str(SecretPath(project, name)), FCreateTime := Str(env.now)]))
  {
    hide ExtractName, SecretPath, WithDefault, WrittenFor;
    SecretIsWritten(project, NewName(data), data, env);
  }

  lemma SecretIsWritten(project: string, name: string, data: Document, env: Env)
    ensures var stamped := data[FProject := Str(project)][FSecretId := Str(name)];
            WrittenFor(WithDefault(WithDefault(stamped, FName, SecretPath(project, name)), FCreateTime, env.now), data,
                       map[FProject := Str(project), FSecretId := Str(name)],
                       map[FName := Str(SecretPath(project, name)), FCreateTime := Str(env.now)])
  {
    hide SecretPath, WithDefault, WrittenFor;
    var columns: Document := map[FProject := Str(project), FSecretId := Str(name)];
    assert data[FProject := Str(project)][FSecretId := Str(name)] == data + columns;
    WrittenWithDefaults(data, columns, FName, SecretPath(project, name), FCreateTime, env.now);
  }

  lemma SecretUpdate(db: SecretDb, project: string, name: string, patch: Document)
    ensures var key, out := GlobalKey(project, name), Apply(db, UpdateSecret(project, name, patch));
            && (key !in db.secrets ==> out == Outcome(db, Err(NotFound)))
            && (key in db.secrets ==>
                && out.result.Ok? && out.db == db.(secrets := db.secrets[key := out.result.value])
                && Says(out.result.value, FProject, project) && Says(out.result.value, FName, SecretPath(project, name))
                && TakesPatch(db.secrets[key], patch, {FName, FProject}, out.result.value))
  {
    hide SecretPath;
    var key := GlobalKey(project, name);
    if key in db.secrets {
      MergeIsPointwise(db.secrets[key], patch, {FName, FProject});
    }
    hide Merged, PatchedAt;
  }

  /** With a secret go exactly its own versions. */
  lemma SecretDeletion(db: SecretDb, project: string, name: string)
    ensures var key, out := GlobalKey(project, name), Apply(db, DeleteSecret(project, name));
            && (key !in db.secrets ==> out == Outcome(db, Err(NotFound)))
            && (key in db.secrets ==>
                && out.result == Ok(map[]) && out.db.secrets == db.secrets - {key}
                && (forall n :: n in out.db.versions <==>
                      n in db.versions && !(db.versions[n].project == project && db.versions[n].secret == name))
                && forall n :: n in out.db.versions ==> out.db.versions[n] == db.versions[n])
  {
  }

  /** Access answers with the stored name and the stored payload, and with nothing else. */
  lemma AccessAnswer(data: Document)
    ensures var answer := AccessResponse(data);
            && answer.Keys == {FName, FPayload}
            && answer[FName] == (if FName in data then data[FName] else Null)
            && answer[FPayload] == (if FPayload in data && data[FPayload].Obj? then data[FPayload]
               else Obj(map[FData := Str("")]))
  {
  }
}
