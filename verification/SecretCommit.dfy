/** The two-file commit: a configuration and the secrets it refers to live in separate
    files, each replaced atomically, with a crash possible between any two writes. */
module SecretCommit {
  import opened Base
  import opened SecretTemplate
  import opened ConfigTree

  type Secrets = map<Text, Text>
  type Table = map<string, Value>

  datatype Disk = Disk(config: Table, secrets: Option<Secrets>)

  // Which writes the operating system lets through, and whether the new configuration
  // passes every check other than resolving its references.
  datatype Outcomes = Outcomes(stage: bool, valid: bool, config: bool, rollback: bool, cleanup: bool)

  // Sections that are checked elsewhere and not resolved here.
  const UNRESOLVED_SECTIONS: set<string> :=
    {"access_credentials", "external_identities", "notifications", "peek_layouts", "configuration_templates"}

  predicate StartsWith(key: Text, prefix: Text) { prefix <= key }

  lemma PrefixIs(key: Text, prefix: Text)
    ensures StartsWith(key, prefix) <==> prefix <= key
  {
  }

  // The tree names this key in some reference.
  predicate Names(v: Value, key: Text) {
    match v
    case Str(text) => key in RefKeys(text)
    case Arr(items) => exists i :: 0 <= i < |items| && Names(items[i], key)
    case Tab(entries) => exists k :: k in entries && Names(entries[k], key)
    case Scalar(_) => false
  }

  lemma {:induction false} TreeResolvesWhenFound(v: Value, a: Vault, b: Vault)
    requires TreeResolves(v, a)
    ensures TreeResolves(v, b) <==> forall k :: Names(v, k) ==> Found(b, k)
  {
    hide Resolve, RefKeys, Lookup;
    match v {
      case Str(text) => ResolvesWhenFound(text, a, b);
      case Arr(items) =>
        forall i | 0 <= i < |items|
          ensures TreeResolves(items[i], b) <==> forall k :: Names(items[i], k) ==> Found(b, k)
        { TreeResolvesWhenFound(items[i], a, b); }
      case Tab(entries) =>
        forall n | n in entries
          ensures TreeResolves(entries[n], b) <==> forall k :: Names(entries[n], k) ==> Found(b, k)
        { TreeResolvesWhenFound(entries[n], a, b); }
      case Scalar(_) =>
    }
  }

  // What is resolved when the configuration is validated.
  function Runtime(config: Table): (r: Value) { Tab(config - UNRESOLVED_SECTIONS) }

  /** Every section is resolved as it stands, save these five. */
  lemma RuntimeSections(config: Table, name: string)
    ensures Child(Runtime(config), Key(name)) ==
            if name in config && name != "access_credentials" && name != "external_identities" &&
               name != "notifications" && name != "peek_layouts" && name != "configuration_templates"
            then Some(config[name]) else None
  {
  }

  function Loaded(file: Option<Secrets>): (r: Secrets) { if file.None? then map[] else file.value }

  predicate Resolvable(config: Table, secrets: Secrets, env: Text -> EnvValue) {
    TreeResolves(Runtime(config), Vault(secrets, env))
  }

  // Every key the tree names, in whatever section, can be looked up.
  ghost predicate KeysFound(v: Value, secrets: Secrets, env: Text -> EnvValue) {
    forall k :: Names(v, k) ==> Found(Vault(secrets, env), k)
  }

  predicate ValidKeys(secrets: Secrets) { forall k :: k in secrets ==> ValidKey(k) }

  // Every managed key the tree names is among the new values or overridden.
  ghost predicate Covered(v: Value, prefix: Text, values: Secrets, env: Text -> EnvValue) {
    forall k :: Names(v, k) && StartsWith(k, prefix) ==> k in values || env(k).Present?
  }

  // Every key the tree names is overridden, or a new value if it is managed, or an old secret
  // if it is not.
  ghost predicate Supplied(v: Value, original: Secrets, prefix: Text, values: Secrets, env: Text -> EnvValue) {
    forall k :: Names(v, k) ==>
      env(k).Present? || (env(k).Absent? && k in if StartsWith(k, prefix) then values else original)
  }

  ghost predicate SameUnmanaged(a: Secrets, b: Secrets, prefix: Text) {
    forall k :: !StartsWith(k, prefix) ==> (k in a <==> k in b) && (k in a && k in b ==> a[k] == b[k])
  }

  // A tree that resolves keeps resolving, and its keys stay present, as long as no secret
  // disappears.
  lemma MoreSecretsResolve(v: Value, a: Secrets, b: Secrets, env: Text -> EnvValue)
    requires a.Keys <= b.Keys
    ensures TreeResolves(v, Vault(a, env)) ==> TreeResolves(v, Vault(b, env))
    ensures KeysFound(v, a, env) ==> KeysFound(v, b, env)
  {
    hide TreeResolves, Names;
    if TreeResolves(v, Vault(a, env)) {
      TreeResolvesWhenFound(v, Vault(a, env), Vault(b, env));
      TreeResolvesWhenFound(v, Vault(a, env), Vault(a, env));
    }
  }

  // The secrets that are left when the obsolete managed ones are dropped.
  function Current(original: Secrets, prefix: Text, values: Secrets): (r: Secrets) {
    (map k | k in original && !StartsWith(k, prefix) :: original[k]) + values
  }

  /** Dropping the obsolete managed keys leaves a tree resolvable exactly when it names none
      of them, and leaves every key it names present exactly when each is supplied. */
  lemma {:induction false} CleanupResolves(v: Value, prefix: Text, original: Secrets, values: Secrets,
                                           env: Text -> EnvValue)
    requires forall k :: k in values ==> StartsWith(k, prefix)
    ensures TreeResolves(v, Vault(original + values, env)) ==>
              (TreeResolves(v, Vault(Current(original, prefix, values), env)) <==> Covered(v, prefix, values, env))
    ensures KeysFound(v, Current(original, prefix, values), env) <==> Supplied(v, original, prefix, values, env)
  {
    hide TreeResolves, Names;
    var staged, current := Vault(original + values, env), Vault(Current(original, prefix, values), env);
    if TreeResolves(v, staged) {
      TreeResolvesWhenFound(v, staged, current);
      TreeResolvesWhenFound(v, staged, staged);
      forall k | Names(v, k) ensures Found(current, k) <==> (StartsWith(k, prefix) ==> k in values || env(k).Present?) {
        assert Found(staged, k);
      }
    }
  }

  lemma OnlyManagedChange(original: Secrets, prefix: Text, values: Secrets)
    requires forall k :: k in values ==> StartsWith(k, prefix)
    ensures SameUnmanaged(original, original, prefix)
    ensures SameUnmanaged(original, original + values, prefix)
    ensures SameUnmanaged(original, Current(original, prefix, values), prefix)
    ensures Current(original, prefix, values).Keys <= (original + values).Keys
  {
  }

  lemma NewValuesPresent(original: Secrets, prefix: Text, values: Secrets)
    ensures var current := Current(original, prefix, values);
            forall k :: k in values ==> k in current && current[k] == values[k]
  {
  }

  // The new configuration, after a cleanup that dropped something.
  predicate CleanedUp(d: Disk, before: Disk, root: Table, prefix: Text, values: Secrets) {
    var original := Loaded(before.secrets);
    var current := Current(original, prefix, values);
    d.config == root && d.secrets == Some(current) && current != original + values
  }

  /** What holds of the two files wherever a crash leaves them, if it held before. Secrets
      outside the managed prefix are as they were. Every key that the configuration on disk
      names, in any section, is present; for the new configuration this needs that its keys
      are supplied, those of dropped secrets only once they have been dropped. The sections
      that validation resolves do resolve, except for a new configuration that names a
      managed key which the cleanup has dropped. */
  ghost predicate Sound(d: Disk, before: Disk, root: Table, prefix: Text, values: Secrets, env: Text -> EnvValue) {
    var original := Loaded(before.secrets);
    && SameUnmanaged(original, Loaded(d.secrets), prefix)
    && (KeysFound(Tab(before.config), original, env) &&
        (d.config == root ==> KeysFound(Tab(root), original + values, env)) &&
        (CleanedUp(d, before, root, prefix, values) ==> Supplied(Tab(root), original, prefix, values, env)) ==>
          KeysFound(Tab(d.config), Loaded(d.secrets), env))
    && (Resolvable(before.config, original, env) &&
        (CleanedUp(d, before, root, prefix, values) ==> Covered(Runtime(root), prefix, values, env)) ==>
          Resolvable(d.config, Loaded(d.secrets), env))
  }

  /** If every key of the old configuration was present and the new one is supplied, then at
      every sound pair of files every key the configuration names is present. */
  lemma SoundKeys(d: Disk, before: Disk, root: Table, prefix: Text, values: Secrets, env: Text -> EnvValue)
    requires Sound(d, before, root, prefix, values, env) && forall k :: k in values ==> StartsWith(k, prefix)
    requires KeysFound(Tab(before.config), Loaded(before.secrets), env)
    requires Supplied(Tab(root), Loaded(before.secrets), prefix, values, env)
    ensures KeysFound(Tab(d.config), Loaded(d.secrets), env)
  {
    hide Names;
    var original := Loaded(before.secrets);
    CleanupResolves(Tab(root), prefix, original, values, env);
    OnlyManagedChange(original, prefix, values);
    MoreSecretsResolve(Tab(root), Current(original, prefix, values), original + values, env);
  }

  lemma UnchangedSound(before: Disk, root: Table, prefix: Text, values: Secrets, env: Text -> EnvValue)
    ensures Sound(before, before, root, prefix, values, env)
  {
    hide KeysFound, Resolvable, Covered, Supplied, StartsWith;
    hide SameUnmanaged;
    SameAsItself(Loaded(before.secrets), prefix);
  }

  lemma SameAsItself(a: Secrets, prefix: Text)
    ensures SameUnmanaged(a, a, prefix)
  {
  }

  lemma {:induction false} StagedSound(before: Disk, root: Table, prefix: Text, values: Secrets, env: Text -> EnvValue)
    requires forall k :: k in values ==> StartsWith(k, prefix)
    ensures var staged := Loaded(before.secrets) + values;
            && Sound(Disk(before.config, Some(staged)), before, root, prefix, values, env)
            && (Resolvable(root, staged, env) ==>
                  && Sound(Disk(root, Some(staged)), before, root, prefix, values, env)
                  && Sound(Disk(root, Some(Current(Loaded(before.secrets), prefix, values))), before, root, prefix,
                           values, env))
  {
    hide TreeResolves, KeysFound, Covered, Supplied, SameUnmanaged, StartsWith;
    var original := Loaded(before.secrets);
    OnlyManagedChange(original, prefix, values);
    MoreSecretsResolve(Runtime(before.config), original, original + values, env);
    MoreSecretsResolve(Tab(before.config), original, original + values, env);
    CleanupResolves(Runtime(root), prefix, original, values, env);
    CleanupResolves(Tab(root), prefix, original, values, env);
  }

  lemma CleanupExact(root: Table, prefix: Text, original: Secrets, values: Secrets, env: Text -> EnvValue)
    requires (forall k :: k in values ==> StartsWith(k, prefix)) && Resolvable(root, original + values, env)
    ensures var current := Current(original, prefix, values);
            && (Resolvable(root, current, env) <==> Covered(Runtime(root), prefix, values, env))
            && (KeysFound(Tab(root), current, env) <==> Supplied(Tab(root), original, prefix, values, env))
  {
    hide TreeResolves, KeysFound, Covered, Supplied, StartsWith, Current;
    CleanupResolves(Runtime(root), prefix, original, values, env);
    CleanupResolves(Tab(root), prefix, original, values, env);
  }

  class Store {
    const env: Text -> EnvValue
    var config: Table
    var secrets: Option<Secrets>
    // Every pair of file contents a crash could leave, oldest first.
    ghost var trace: seq<Disk>

    constructor (config: Table, secrets: Option<Secrets>, env: Text -> EnvValue)
      ensures this.config == config && this.secrets == secrets && this.env == env && trace == [Now()]
    {
      this.config, this.secrets, this.env := config, secrets, env;
      trace := [Disk(config, secrets)];
    }

    ghost function Now(): (d: Disk)
      reads this
    {
      Disk(config, secrets)
    }

    method WriteSecrets(file: Option<Secrets>)
      modifies this
      ensures secrets == file && config == old(config) && trace == old(trace) + [Now()]
    {
      secrets := file;
      trace := trace + [Disk(config, secrets)];
    }

    method WriteConfig(root: Table)
      modifies this
      ensures config == root && secrets == old(secrets) && trace == old(trace) + [Now()]
    {
      config := root;
      trace := trace + [Disk(config, secrets)];
    }

    // The secrets to write before the configuration, and those to leave after it.
    method Prepare(prefix: Text, values: Secrets) returns (r: Option<(Secrets, Secrets)>)
      ensures r.Some? ==>
                && (forall k :: k in values ==> StartsWith(k, prefix))
                && r.value == (Loaded(secrets) + values, Current(Loaded(secrets), prefix, values))
      ensures r.Some? <==>
              (forall k :: k in values ==> StartsWith(k, prefix) && ValidKey(k)) && ValidKeys(Loaded(secrets))
    {
      hide ValidKey, StartsWith;
      if exists k :: k in values && !StartsWith(k, prefix) {
        return None;
      }
      var original := Loaded(secrets);
      var staged := original + values;
      var current := Current(original, prefix, values);
      if !ValidKeys(original) || !ValidKeys(staged) || !ValidKeys(current) {
        assert !ValidKeys(original) || exists k :: k in values && !ValidKey(k);
        return None;
      }
      assert forall k :: k in values ==> k in staged;
      return Some((staged, current));
    }

    /** write_configuration_table_with_managed_secrets. */
    method WriteWithManagedSecrets(root: Table, prefix: Text, values: Secrets, io: Outcomes) returns (ok: bool)
      requires trace == [Now()]
      modifies this
      // The trace is the history of the two files, up to what they hold now.
      ensures old(trace) <= trace && trace[|trace| - 1] == Now()
      // At every crash point.
      ensures forall i :: 0 <= i < |trace| ==>
                Sound(trace[i], Disk(old(config), old(secrets)), root, prefix, values, env)
      ensures ok && secrets == Some(Current(Loaded(old(secrets)), prefix, values)) ==>
                && (Resolvable(config, Loaded(secrets), env) <==> Covered(Runtime(root), prefix, values, env))
                && (KeysFound(Tab(config), Loaded(secrets), env) <==>
                      Supplied(Tab(root), Loaded(old(secrets)), prefix, values, env))
      // It succeeds exactly when the keys are managed and valid, the new configuration
      // validates with the staged secrets, and both files can be written.
      ensures ok <==> && (forall k :: k in values ==> prefix <= k && ValidKey(k))
                      && ValidKeys(Loaded(old(secrets))) && io.stage && io.valid && io.config
                      && Resolvable(root, Loaded(old(secrets)) + values, env)
      // Success means the new configuration with its new secrets; the old managed ones are
      // gone unless the cleanup write failed.
      ensures ok ==> config == root && secrets.Some?
      ensures ok ==> forall k :: k in values ==> k in secrets.value && secrets.value[k] == values[k]
      ensures ok ==> secrets == Some(if io.cleanup then Current(Loaded(old(secrets)), prefix, values)
                                     else Loaded(old(secrets)) + values)
      // Failure leaves the configuration alone, and with the rollback written, both files.
      ensures !ok ==> config == old(config)
      ensures !ok ==> secrets == old(secrets) ||
                      (io.stage && !io.rollback && secrets == Some(Loaded(old(secrets)) + values))
    {
      hide Resolvable, TreeResolves, KeysFound, Covered, Supplied, StartsWith, ValidKey, ValidKeys, Current, Sound;
      ghost var before := Now();
      UnchangedSound(before, root, prefix, values, env);
      forall k | k in values ensures StartsWith(k, prefix) <==> prefix <= k { PrefixIs(k, prefix); }
      var prepared := Prepare(prefix, values);
      if prepared.None? || !io.stage {
        return false;
      }
      ghost var original := Loaded(secrets);
      var (staged, current) := prepared.value;
      var originalFile := secrets;
      StagedSound(before, root, prefix, values, env);
      WriteSecrets(Some(staged));
      if !Resolvable(root, staged, env) || !io.valid || !io.config {
        if io.rollback {
          WriteSecrets(originalFile);
        }
        return false;
      }
      CleanupExact(root, prefix, original, values, env);
      NewValuesPresent(original, prefix, values);
      WriteConfig(root);
      if staged != current && io.cleanup {
        WriteSecrets(Some(current));
      }
      return true;
    }
  }
}
