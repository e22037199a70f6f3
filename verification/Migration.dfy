/** Moving the session token from the plaintext settings to the secrets store, over restarts and failures. */
module Migration {
  import opened Json

  /** What the secrets store holds under the token's name. */
  datatype Secret = Absent | Unreadable | Plain(text: string)

  datatype World = World(setting: Option<Json>, secret: Secret)

  /** How one call goes: it works, it fails with or without having taken effect, or the process stops before
      or after it. */
  datatype Fault = Works | Fails | FailsLate | Dies | DiesLate

  predicate TakesEffect(f: Fault) { f.Works? || f.FailsLate? || f.DiesLate? }

  predicate ReportsOk(f: Fault) { f.Works? }

  /** The fate of each call of one startup. */
  datatype Faults = Faults(getSecret: Fault, checkSetting: Fault, cleanUp: Fault, getSetting: Fault, create: Fault,
      delete: Fault)

  const NO_FAULTS := Faults(Works, Works, Works, Works, Works, Works)

  /** The text under which a token is stored. */
  function Stored(c: Codec, token: Json): string { if token.Str? then token.s else c.show(token) }

  // ---------------------------------------------------------------- one startup

  function Deleted(w: World, f: Fault): World { if TakesEffect(f) then w.(setting := None) else w }

  /** Reading the setting and storing it; deleting it only once the store reports success. */
  function Migrated(c: Codec, w: World, f: Faults): World {
    if !ReportsOk(f.getSetting) || w.setting.None? then w
    else
      var w' := if TakesEffect(f.create) then w.(secret := Plain(Stored(c, w.setting.value))) else w;
      if ReportsOk(f.create) then Deleted(w', f.delete) else w'
  }

  /** The world after one startup, finished or not. */
  function Startup(c: Codec, w: World, f: Faults): World {
    if !ReportsOk(f.getSecret) then w
    else match w.secret
      case Unreadable => w
      case Absent => Migrated(c, w, f)
      case Plain(text) =>
        if c.parse(text).None? then Migrated(c, w, f)
        else if !ReportsOk(f.checkSetting) || w.setting.None? then w
        else if c.parse(text) == w.setting then Deleted(w, f.cleanUp)
        else Migrated(c, w, f)
  }

  function Startups(c: Codec, w: World, runs: seq<Faults>): World {
    if runs == [] then w else Startup(c, Startups(c, w, runs[..|runs| - 1]), runs[|runs| - 1])
  }

  // ---------------------------------------------------------------- as the code runs it

  datatype Reply<T> = Ok(value: T) | NotFound | Error | Stopped

  class Stores {
    var setting: Option<Json>
    var secret: Secret

    ghost function Now(): World
      reads this
    {
      World(setting, secret)
    }

    method GetDecrypted(f: Fault) returns (r: Reply<string>)
      ensures ReportsOk(f) ==>
                r == match secret case Absent => NotFound case Unreadable => Error case Plain(text) => Ok(text)
      ensures !ReportsOk(f) ==> r.Error? || r.Stopped?
    {
      if f.Dies? || f.DiesLate? { return Stopped; }
      if f.Fails? || f.FailsLate? { return Error; }
      match secret
      case Absent => r := NotFound;
      case Unreadable => r := Error;
      case Plain(text) => r := Ok(text);
    }

    method GetSetting(f: Fault) returns (r: Reply<Option<Json>>)
      ensures ReportsOk(f) ==> r == Ok(setting)
      ensures !ReportsOk(f) ==> r.Error? || r.Stopped?
    {
      if f.Dies? || f.DiesLate? { return Stopped; }
      if f.Fails? || f.FailsLate? { return Error; }
      r := Ok(setting);
    }

    method DeleteSetting(f: Fault)
      modifies this
      ensures Now() == Deleted(old(Now()), f)
    {
      if f.Works? || f.FailsLate? || f.DiesLate? { setting := None; }
    }

    method Create(f: Fault, text: string) returns (r: Reply<()>)
      modifies this
      ensures Now() == if TakesEffect(f) then old(Now()).(secret := Plain(text)) else old(Now())
      ensures r.Ok? <==> ReportsOk(f)
    {
      if f.Works? || f.FailsLate? || f.DiesLate? { secret := Plain(text); }
      r := if f.Works? then Ok(()) else if f.Fails? || f.FailsLate? then Error else Stopped;
    }

    method MigrateSessionCredential(c: Codec, f: Faults)
      modifies this
      ensures Now() == Startup(c, old(Now()), f)
    {
      var got := GetDecrypted(f.getSecret);
      match got {
        case Ok(text) =>
          var secretValue := c.parse(text);
          if secretValue.Some? {
            var check := GetSetting(f.checkSetting);
            match check {
              case Ok(found) =>
                if found.None? { return; }
                if secretValue == found {
                  DeleteSetting(f.cleanUp);
                  return;
                }
              case _ => return;
            }
          }
        case NotFound =>
        case _ => return;
      }
      var read := GetSetting(f.getSetting);
      if !read.Ok? || read.value.None? { return; }
      var value := read.value.value;
      var created := Create(f.create, if value.Str? then value.s else c.show(value));
      if created.Ok? { DeleteSetting(f.delete); }
    }
  }

  // ---------------------------------------------------------------- the token is never lost

  /** A bare string, or the JSON text of anything else. */
  predicate IsTextOf(c: Codec, token: Json, text: string) {
    match token
    case Str(s) => text == s
    case _ => text == c.show(token)
  }

  /** The token is in the plaintext setting, or the stored secret is its text or parses to it. */
  predicate Kept(c: Codec, w: World, token: Json) {
    || w.setting == Some(token)
    || (w.setting.None? && w.secret.Plain?
        && (IsTextOf(c, token, w.secret.text) || c.parse(w.secret.text) == Some(token)))
  }

  /** Over any number of startups, whatever fails and wherever the process stops. */
  lemma {:induction false} TokenIsKept(c: Codec, w: World, runs: seq<Faults>, token: Json)
    requires w.setting == Some(token)
    ensures Kept(c, Startups(c, w, runs), token)
  {
    if runs != [] { TokenIsKept(c, w, runs[..|runs| - 1], token); }
  }

  /** With the setting gone, no startup changes anything, whatever fails. */
  lemma {:induction false} MigratedIsStable(c: Codec, w: World, runs: seq<Faults>)
    requires w.setting.None?
    ensures Startups(c, w, runs) == w
  {
    if runs != [] { MigratedIsStable(c, w, runs[..|runs| - 1]); }
  }

  /** One startup in which every call succeeds: the setting goes exactly when the secret can be read or is
      absent; and then no later startup changes anything. */
  lemma FaultlessStartupFinishes(c: Codec, w: World, runs: seq<Faults>)
    ensures var w' := Startup(c, w, NO_FAULTS);
            && (w'.setting.None? <==> w.setting.None? || !w.secret.Unreadable?)
            && (w'.setting.None? ==> Startups(c, w', runs) == w')
  {
    if Startup(c, w, NO_FAULTS).setting.None? { MigratedIsStable(c, Startup(c, w, NO_FAULTS), runs); }
  }

  /** The sessions read the secret as JSON. The token they get is the original exactly when it was not a
      bare string: that one is stored without its quotes. */
  lemma StoredParsesBack(c: Codec, token: Json)
    requires c.Lawful()
    ensures c.parse(Stored(c, token)) == Some(token) <==> !token.Str?
  {
    if token.Str? {
      assert c.parse(token.s) != Some(Str(token.s));
    } else {
      assert c.parse(c.show(token)) == Some(token);
    }
  }

  /** So, when it is not, the token can be read as JSON from wherever it is, after any startups. */
  lemma TokenIsReadable(c: Codec, w: World, runs: seq<Faults>, token: Json)
    requires c.Lawful() && w.setting == Some(token) && !token.Str?
    ensures var w' := Startups(c, w, runs);
            w'.setting == Some(token) || (w'.secret.Plain? && c.parse(w'.secret.text) == Some(token))
  {
    TokenIsKept(c, w, runs, token);
    StoredParsesBack(c, token);
  }

  /** The calls and what they find lead the startup to store the setting as the secret. */
  predicate Overwrites(c: Codec, w: World, f: Faults) {
    && w.setting.Some? && !w.secret.Unreadable?
    && ReportsOk(f.getSecret) && ReportsOk(f.getSetting) && TakesEffect(f.create)
    && (w.secret.Plain? && c.parse(w.secret.text).Some? ==>
          ReportsOk(f.checkSetting) && c.parse(w.secret.text) != w.setting)
  }

  /** In one startup, whatever fails, the secret stays what it was exactly when it is not overwritten, or with
      the text it has. A secret that parses to something else than the setting is overwritten, even a newer one. */
  lemma SecretSurvivesWhen(c: Codec, w: World, f: Faults)
    ensures Startup(c, w, f).secret == w.secret <==>
            !Overwrites(c, w, f) || (w.secret.Plain? && IsTextOf(c, w.setting.value, w.secret.text))
    ensures Overwrites(c, w, f) ==>
              Startup(c, w, f).secret.Plain? && IsTextOf(c, w.setting.value, Startup(c, w, f).secret.text)
  {
  }

  /** The calls and what they find lead the startup to delete the setting: the secret is it already, or it was stored
      and the store reported success. */
  predicate Removes(c: Codec, w: World, f: Faults) {
    && w.setting.Some? && !w.secret.Unreadable? && ReportsOk(f.getSecret)
    && if w.secret.Plain? && c.parse(w.secret.text) == w.setting
       then ReportsOk(f.checkSetting) && TakesEffect(f.cleanUp)
       else
         && (w.secret.Plain? && c.parse(w.secret.text).Some? ==> ReportsOk(f.checkSetting))
         && ReportsOk(f.getSetting) && ReportsOk(f.create) && TakesEffect(f.delete)
  }

  /** In one startup, whatever fails, the setting goes exactly then, and else it stays what it was. */
  lemma SettingGoesWhen(c: Codec, w: World, f: Faults)
    ensures Startup(c, w, f).setting == if Removes(c, w, f) then None else w.setting
  {
  }

  /** A secret is lost over some startups only if it is overwritten at one of them. */
  lemma {:induction false} SecretSurvivesRuns(c: Codec, w: World, runs: seq<Faults>)
    requires forall i | 0 <= i < |runs| :: !Overwrites(c, Startups(c, w, runs[..i]), runs[i])
    ensures Startups(c, w, runs).secret == w.secret
  {
    if runs != [] {
      var n := |runs| - 1;
      forall i | 0 <= i < n ensures !Overwrites(c, Startups(c, w, runs[..n][..i]), runs[..n][i]) {
        assert runs[..n][..i] == runs[..i];
      }
      SecretSurvivesRuns(c, w, runs[..n]);
      SecretSurvivesWhen(c, Startups(c, w, runs[..n]), runs[n]);
    }
  }

  lemma OtherSecretIsLost(c: Codec, older: Json, newer: Json, text: string)
    requires c.parse(text) == Some(newer) && !older.Str? && older != newer
    ensures Startup(c, World(Some(older), Plain(text)), NO_FAULTS) == World(None, Plain(c.show(older)))
  {
  }

  /** A newer token in the secrets store gives way to the older one left in the settings. */
  lemma NewerSecretIsLost(c: Codec, older: Json, newer: Json)
    requires c.Lawful() && !older.Str? && older != newer
    ensures Startup(c, World(Some(older), Plain(c.show(newer))), NO_FAULTS) == World(None, Plain(c.show(older)))
  {
    assert c.parse(c.show(newer)) == Some(newer);
    OtherSecretIsLost(c, older, newer, c.show(newer));
  }
}
