/** Service accounts and their keys. The account's e-mail address is unique over all projects. */
module ServiceAccounts {
  import opened Wrappers
  import opened Json
  import opened Tables
  import opened Merge
  import opened Requests
  import Compute

  datatype Account = Account(project: string, uniqueId: string, data: Document)

  datatype AccountKey = AccountKey(project: string, email: string, data: Document)

  /** Accounts by e-mail address, keys by name. */
  datatype AccountDb = AccountDb(accounts: map<string, Account>, keys: map<string, AccountKey>)

  const NO_ACCOUNTS := AccountDb(map[], map[])

  /** `env.id` is the fresh unique id of an account, or the fresh name of a key. */
  datatype AccountOp =
    | CreateAccount(project: string, data: Document, env: Env)
    | UpdateAccount(project: string, email: string, patch: Document)
    | DeleteAccount(project: string, email: string)
    | CreateKey(project: string, email: string, data: Document, env: Env)
    | DeleteKey(name: string)

  function Email(accountId: string, project: string): string {
    accountId + "@" + project + ".iam.gserviceaccount.com"
  }

  /** An account is named by `accountId`, else by `name`. */
  function AccountId(data: Document): string {
    if GetString(data, FAccountId) != "" then GetString(data, FAccountId) else GetString(data, FName)
  }

  predicate IdTaken(db: AccountDb, project: string, id: string) {
    exists e :: e in db.accounts && db.accounts[e].project == project && db.accounts[e].uniqueId == id
  }

  predicate Holds(db: AccountDb, project: string, email: string) {
    email in db.accounts && db.accounts[email].project == project
  }

  function Apply(db: AccountDb, op: AccountOp): Outcome<AccountDb> {
    match op
    case CreateAccount(project, data, env) =>
      var accountId := AccountId(data);
      if accountId == "" then Compute.Fail(db, Required)
      else
        var email := Email(accountId, project);
        if email in db.accounts || IdTaken(db, project, env.id) then Compute.Fail(db, AlreadyExists)
        else
          var row := WithDefault(
            data[FAccountId := Str(accountId)][FProject := Str(project)][FUniqueId := Str(env.id)][FEmail :=
              Str(email)],
            FName, "projects/" + project + "/serviceAccounts/" + email);
          Outcome(db.(accounts := db.accounts[email := Account(project, env.id, row)]), Ok(row))
    case UpdateAccount(project, email, patch) =>
      if !Holds(db, project, email) then Compute.Fail(db, NotFound)
      else
        var account := db.accounts[email];
        var merged := Merged(account.data, patch, {FName, FEmail, FProject, FUniqueId});
        var stamped := merged[FProject := Str(project)][FEmail := Str(email)];
        Outcome(db.(accounts := db.accounts[email := account.(data := stamped)]), Ok(stamped))
    case DeleteAccount(project, email) =>
      if !Holds(db, project, email) then Compute.Fail(db, NotFound)
      else
        var left := map k | k in db.keys && db.keys[k].email != email :: db.keys[k];
        Outcome(AccountDb(db.accounts - {email}, left), Ok(map[]))
    case CreateKey(project, email, data, env) =>
      var name := if GetString(data, FName) != "" then GetString(data, FName) else env.id;
      (match InsertError(name in db.keys, email in db.accounts)
       case Some(e) => Compute.Fail(db, e)
       case None =>
         var row := WithDefault(
           data[FName := Str(name)][FProject := Str(project)][FServiceAccountEmail := Str(email)], FValidAfterTime,
             env.now);
         Outcome(db.(keys := db.keys[name := AccountKey(project, email, row)]), Ok(row)))
    case DeleteKey(name) =>
      if name !in db.keys then Compute.Fail(db, NotFound)
      else Outcome(db.(keys := db.keys - {name}), Ok(map[]))
  }

  ghost predicate Valid(db: AccountDb) {
    forall k :: k in db.keys ==> db.keys[k].email in db.accounts
  }

  lemma StepKeepsValid(db: AccountDb, op: AccountOp)
    requires Valid(db)
    ensures Valid(Apply(db, op).db)
  {
    hide Merged, Email, WithDefault;
  }

  lemma RejectedStepChangesNothing(db: AccountDb, op: AccountOp)
    requires Apply(db, op).result.Err?
    ensures Apply(db, op).db == db
  {
    hide Merged, Email, WithDefault;
  }

  /** The operation that takes back a creation. */
  function DeletionOf(op: AccountOp): AccountOp {
    match op
    case CreateAccount(project, data, _) =>
      DeleteAccount(project, Email(AccountId(data), project))
    case CreateKey(_, _, data, env) =>
      DeleteKey(if GetString(data, FName) != "" then GetString(data, FName) else env.id)
    case _ => op
  }

  /** Deleting an account or key just created brings back the tables as they were. */
  lemma DeletionUndoesCreation(db: AccountDb, op: AccountOp)
    requires Valid(db) && DeletionOf(op) != op && Apply(db, op).result.Ok?
    ensures Apply(Apply(db, op).db, DeletionOf(op)) == Outcome(db, Ok(map[]))
  {
    hide Email, AccountId, WithDefault;
    var once := Apply(db, op).db;
    match DeletionOf(op)
    case DeleteAccount(project, email) =>
      assert once.accounts - {email} == db.accounts;
      assert (map k | k in once.keys && once.keys[k].email != email :: once.keys[k]) == db.keys;
    case DeleteKey(name) => assert once.keys - {name} == db.keys;
  }

  /** A successful account update repeated with the same patch changes nothing. */
  lemma UpdatesAreIdempotent(db: AccountDb, op: AccountOp)
    requires op.UpdateAccount? && Apply(db, op).result.Ok?
    ensures var once := Apply(db, op); Apply(once.db, op) == once
  {
    hide Email;
    var stamps: Document := map[FProject := Str(op.project), FEmail := Str(op.email)];
    var skip, account := {FName, FEmail, FProject, FUniqueId}, db.accounts[op.email];
    StampedMergeIsIdempotent(account.data, op.patch, skip, stamps);
    hide Merged;
    var row := Apply(db, op).result.value;
    assert row == Merged(account.data, op.patch, skip) + stamps;
    assert Merged(row, op.patch, skip)[FProject := Str(op.project)][FEmail := Str(op.email)]
      == Merged(row, op.patch, skip) + stamps;
    Compute.RewritingIsIdempotent(db.accounts, op.email, account.(data := row));
  }

  // ------------------------------------------------ outcomes, read off the request

  lemma EmailText(id: string, project: string)
    ensures Email(id, project) == id + "@" + project + ".iam.gserviceaccount.com"
  {
  }

  /** An account is named by `accountId`, else by `name`; its address must be new, and its fresh id new in the
      project. */
  lemma AccountCreation(db: AccountDb, project: string, data: Document, env: Env)
    ensures var id := if GetString(data, FAccountId) != "" then GetString(data, FAccountId) else GetString(data, FName);
            var email := Email(id, project);
            var taken := email in db.accounts ||
                         exists e :: e in db.accounts && db.accounts[e].project == project
                           && db.accounts[e].uniqueId == env.id;
            var out := Apply(db, CreateAccount(project, data, env));
            && (out.result.Ok? <==> id != "" && !taken)
            && (out.result.Err? ==> out == Outcome(db, Err(if id == "" then Required else AlreadyExists)))
            && (out.result.Ok? ==>
                && out.db == db.(accounts := db.accounts[email := Account(project, env.id, out.result.value)])
                && WrittenFor(out.result.value, data,
                              map[FAccountId := Str(id), FProject := Str(project), FUniqueId := Str(env.id),
                                FEmail := Str(email)],
                              map[FName := Str("projects/" + project + "/serviceAccounts/" + email)]))
  {
    hide Email, WithDefault, WrittenFor;
    AccountIsWritten(project, AccountId(data), data, env);
  }

  lemma AccountIsWritten(project: string, id: string, data: Document, env: Env)
    ensures var email := Email(id, project);
            var path := "projects/" + project + "/serviceAccounts/" + email;
            WrittenFor(WithDefault(data[FAccountId := Str(id)][FProject := Str(project)][FUniqueId := Str(env.id)]
                                       [FEmail := Str(email)], FName, path), data,
                       map[FAccountId := Str(id), FProject := Str(project), FUniqueId := Str(env.id),
                         FEmail := Str(email)],
                       map[FName := Str(path)])
  {
    hide Email, WithDefault, WrittenFor;
    var email := Email(id, project);
    var columns: Document :=
      map[FAccountId := Str(id), FProject := Str(project), FUniqueId := Str(env.id), FEmail := Str(email)];
    assert data[FAccountId := Str(id)][FProject := Str(project)][FUniqueId := Str(env.id)][FEmail := Str(email)]
      == data + columns;
    WrittenWithDefault(data, columns, FName, "projects/" + project + "/serviceAccounts/" + email);
  }

  lemma AccountUpdate(db: AccountDb, project: string, email: string, patch: Document)
    ensures var held := email in db.accounts && db.accounts[email].project == project;
            var out := Apply(db, UpdateAccount(project, email, patch));
            && (!held ==> out == Outcome(db, Err(NotFound)))
            && (held ==>
                && out.result.Ok?
                && out.db == db.(accounts := db.accounts[email := db.accounts[email].(data := out.result.value)])
                && Says(out.result.value, FProject, project) && Says(out.result.value, FEmail, email)
                && Unchanged(db.accounts[email].data, {FName, FUniqueId}, out.result.value)
                && TakesPatch(db.accounts[email].data, patch, {FName, FEmail, FProject, FUniqueId}, out.result.value))
  {
    if email in db.accounts {
      MergeIsPointwise(db.accounts[email].data, patch, {FName, FEmail, FProject, FUniqueId});
    }
    hide Merged, PatchedAt;
  }

  /** A key is named by its document, else freshly; it needs an account of that address, of any project. */
  lemma KeyCreation(db: AccountDb, project: string, email: string, data: Document, env: Env)
    ensures var name := if GetString(data, FName) != "" then GetString(data, FName) else env.id;
            var out := Apply(db, CreateKey(project, email, data, env));
            && (out.result.Ok? <==> name !in db.keys && email in db.accounts)
            && (out.result.Err? ==> out == Outcome(db, Err(if name in db.keys then AlreadyExists else NotFound)))
            && (out.result.Ok? ==>
                && out.db == db.(keys := db.keys[name := AccountKey(project, email, out.result.value)])
                && WrittenFor(out.result.value, data,
                              map[FName := Str(name), FProject := Str(project), FServiceAccountEmail := Str(email)],
                              map[FValidAfterTime := Str(env.now)]))
  {
    hide WithDefault, WrittenFor;
    var name := if GetString(data, FName) != "" then GetString(data, FName) else env.id;
    var columns: Document := map[FName := Str(name), FProject := Str(project), FServiceAccountEmail := Str(email)];
    assert data[FName := Str(name)][FProject := Str(project)][FServiceAccountEmail := Str(email)] == data + columns;
    WrittenWithDefault(data, columns, FValidAfterTime, env.now);
  }

  /** With an account go exactly its own keys. */
  lemma Deletions(db: AccountDb, project: string, email: string, name: string)
    ensures var held := email in db.accounts && db.accounts[email].project == project;
            var out := Apply(db, DeleteAccount(project, email));
            && (!held ==> out == Outcome(db, Err(NotFound)))
            && (held ==>
                && out.result == Ok(map[]) && out.db.accounts == db.accounts - {email}
                && forall k :: k in out.db.keys <==> k in db.keys && db.keys[k].email != email)
    ensures Apply(db, DeleteKey(name)) ==
              if name in db.keys then Outcome(db.(keys := db.keys - {name}), Ok(map[])) else Outcome(db, Err(NotFound))
  {
  }
}
