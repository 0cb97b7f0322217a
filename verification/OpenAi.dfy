/**
 The OpenAI settings of a user: backend/app/services/llm.py. Each operation is one step, and the only
 state of a user is the stored configuration, the secret, the cached model catalogue, and whether the
 installation has an encryption key.
 */
module OpenAi {
  import opened Wrappers
  import opened Text

  const DEFAULT_MODEL := "gpt-5.6-sol"
  const MAX_MODEL_LENGTH := 100
  const MIN_KEY_LENGTH := 20
  const MAX_KEY_LENGTH := 500

  datatype ValidationStatus = NotValidated | Ready | Error

  /** The JSON object of a row, or a text that is not one. */
  datatype StoredConfig =
    | Unreadable
    | Stored(
        enabled: Field<bool>,
        model: Field<string>,
        validationStatus: Field<string>,
        validatedModel: Field<string>,
        lastValidatedAt: Option<int>,
        lastSuccessAt: Option<int>,
        lastErrorAt: Option<int>)

  /** The configuration as the operations see it. */
  datatype Config = Config(
    enabled: bool,
    model: string,
    status: ValidationStatus,
    validatedModel: Option<string>,
    lastValidatedAt: Option<int>,
    lastSuccessAt: Option<int>,
    lastErrorAt: Option<int>)

  datatype Secret = NoSecret | Active | Revoked

  /** `catalog`: the models in the cache, if there is an entry. */
  datatype State = State(row: Option<StoredConfig>, secret: Secret, storeAvailable: bool, catalog: Option<set<string>>)

  // ---------- Reading and writing the row ----------

  predicate IsModelChar(c: char) {
    'A' <= c <= 'Z' || 'a' <= c <= 'z' || '0' <= c <= '9' || c == '.' || c == '_' || c == ':' || c == '-'
  }

  predicate IsModelName(s: string) {
    0 < |s| <= MAX_MODEL_LENGTH && forall k | 0 <= k < |s| :: IsModelChar(s[k])
  }

  /** `_validated_model`, or `_safe_optional_model`: the stripped name, if it is one. */
  function ModelName(value: Field<string>): Option<string> {
    if value.Value? && IsModelName(Strip(value.value)) then Some(Strip(value.value)) else None
  }

  /** `_safe_model` */
  function SafeModel(value: Field<string>): string {
    if ModelName(value).Some? then ModelName(value).value else DEFAULT_MODEL
  }

  const FRESH_CONFIG := Config(false, DEFAULT_MODEL, NotValidated, None, None, None, None)

  function StatusText(status: ValidationStatus): string {
    match status
    case NotValidated => "not_validated"
    case Ready => "ready"
    case Error => "error"
  }

  function ReadStatus(text: Field<string>): ValidationStatus {
    if text == Value("ready") then Ready else if text == Value("error") then Error else NotValidated
  }

  /** `_integration_config` */
  function Load(row: Option<StoredConfig>): Config {
    if row.None? || row.value.Unreadable? then FRESH_CONFIG
    else
      var v := row.value;
      var model, status, validated := SafeModel(v.model), ReadStatus(v.validationStatus), ModelName(v.validatedModel);
      Config(v.enabled == Value(true), model, status,
             if status == Ready && validated.None? then Some(model) else validated,
             v.lastValidatedAt, v.lastSuccessAt, v.lastErrorAt)
  }

  /** `_save_config` */
  function Save(c: Config): Option<StoredConfig> {
    Some(Stored(Value(c.enabled), Value(c.model), Value(StatusText(c.status)),
                if c.validatedModel.Some? then Value(c.validatedModel.value) else Null,
                c.lastValidatedAt, c.lastSuccessAt, c.lastErrorAt))
  }

  /** The configurations that reading can give. */
  predicate IsNormal(c: Config) {
    && IsModelName(c.model) && (c.validatedModel.Some? ==> IsModelName(c.validatedModel.value))
    && (c.status == Ready ==> c.validatedModel.Some?)
  }

  lemma ModelNamesAreStripped(s: string)
    requires IsModelName(s)
    ensures Strip(s) == s && ModelName(Value(s)) == Some(s) && SafeModel(Value(s)) == s
  {
  }

  lemma LoadIsNormal(row: Option<StoredConfig>)
    ensures IsNormal(Load(row))
  {
    assert IsModelName(DEFAULT_MODEL);
  }

  lemma StatusIsReadBack(status: ValidationStatus)
    ensures ReadStatus(Value(StatusText(status))) == status
  {
  }

  /** What is stored is read back as it was. */
  lemma SaveLoad(c: Config)
    requires IsNormal(c)
    ensures Load(Save(c)) == c
  {
    ModelNamesAreStripped(c.model);
    if c.validatedModel.Some? {
      ModelNamesAreStripped(c.validatedModel.value);
    }
    StatusIsReadBack(c.status);
  }

  // ---------- The reported status ----------

  datatype Report = RequiresEncryptionKey | RequiresApiKey | ReportNotValidated | ReportError | Disabled | ReportReady

  function ModelAvailable(s: State, model: string): Option<bool> {
    if s.catalog.None? then None else Some(model in s.catalog.value)
  }

  function KeyConfigured(s: State): bool {
    s.storeAvailable && s.secret == Active
  }

  /** The status of `openai_status`: the first obstacle in its order. */
  function Reported(supported: string -> bool, s: State): Report {
    var c := Load(s.row);
    if !s.storeAvailable then RequiresEncryptionKey
    else if !KeyConfigured(s) then RequiresApiKey
    else if !supported(c.model) then ReportNotValidated
    else if ModelAvailable(s, c.model) == Some(false) then ReportNotValidated
    else if c.status == Error then ReportError
    else if c.status != Ready then ReportNotValidated
    else if !c.enabled then Disabled
    else ReportReady
  }

  /** The flag `safe_to_use` of `openai_status`. */
  function SafeToUse(supported: string -> bool, s: State): bool {
    var c := Load(s.row);
    && c.enabled && s.storeAvailable && KeyConfigured(s) && supported(c.model)
    && ModelAvailable(s, c.model) != Some(false)
    && c.validatedModel == Some(c.model)
    && Reported(supported, s) == ReportReady
  }

  // ---------- The operations ----------

  datatype Op =
    | SaveKey(key: string)
    | Update(enabled: Option<bool>, model: Option<string>)
    | Revoke
    | Validate(succeeds: bool)
    | RecordSuccess
    | RecordError
    | CatalogFetched(models: set<string>)
    | CatalogLost
    | EncryptionKeySet(available: bool)

  datatype Result = Done | Raised | NotChecked

  function ClearedValidation(c: Config): Config {
    c.(status := NotValidated, validatedModel := None, lastValidatedAt := None, lastErrorAt := None)
  }

  function Observed(c: Config, now: int, validated: bool, success: bool, error: bool): Config {
    var a := if validated then c.(lastValidatedAt := Some(now), validatedModel := Some(c.model)) else c;
    var status := if validated then Ready else a.status;
    var b := if success then a.(status := status, lastSuccessAt := Some(now), lastErrorAt := None) else a;
    if error then b.(status := Error, validatedModel := None, lastErrorAt := Some(now)) else b
  }

  /** The part of `update_openai_settings` that changes the model; `None` when it raises. */
  function WithModel(supported: string -> bool, s: State, c: Config, model: Option<string>): Option<Config> {
    if model.None? then Some(c)
    else if ModelName(Value(model.value)).None? then None
    else
      var name := ModelName(Value(model.value)).value;
      if name == c.model then Some(c)
      else if !supported(name) || ModelAvailable(s, name) != Some(true) then None
      else Some(ClearedValidation(c).(model := name))
  }

  /** The checks before enabling: all of them on the stored configuration. */
  predicate MayEnable(s: State) {
    var c := Load(s.row);
    s.storeAvailable && KeyConfigured(s) && c.status == Ready && c.validatedModel == Some(c.model)
    && ModelAvailable(s, c.model) != Some(false)
  }

  function Apply(supported: string -> bool, s: State, op: Op, now: int): (State, Result) {
    var c := Load(s.row);
    match op
    case SaveKey(key) =>
      if !s.storeAvailable || !(MIN_KEY_LENGTH <= |Strip(key)| <= MAX_KEY_LENGTH) then (s, Raised)
      else (s.(secret := Active, catalog := None, row := Save(ClearedValidation(c))), Done)
    case Update(enabled, model) =>
      var changed := WithModel(supported, s, c, model);
      if changed.None? || (enabled == Some(true) && !MayEnable(s)) then (s, Raised)
      else (s.(row := Save(if enabled.Some? then changed.value.(enabled := enabled.value) else changed.value)), Done)
    case Revoke =>
      (s.(secret := if s.secret == NoSecret then NoSecret else Revoked, catalog := None,
          row := Save(ClearedValidation(c).(enabled := false, lastSuccessAt := None))), Done)
    case Validate(succeeds) =>
      if !KeyConfigured(s) || !supported(c.model) then (s, NotChecked)
      else (s.(row := Save(Observed(c, now, succeeds, succeeds, !succeeds))), Done)
    case RecordSuccess => (s.(row := Save(Observed(c, now, false, true, false))), Done)
    case RecordError => (s.(row := Save(Observed(c, now, false, false, true))), Done)
    case CatalogFetched(models) => (s.(catalog := Some(models)), Done)
    case CatalogLost => (s.(catalog := None), Done)
    case EncryptionKeySet(available) => (s.(storeAvailable := available), Done)
  }

  // ---------- The history ----------

  /** What an operation meant for the validation of the configuration. */
  datatype Mark = KeySaved | KeyRevoked | ModelChanged | ErrorRecorded | Validated(model: string) | Quiet

  function MarkOf(supported: string -> bool, s: State, op: Op): Mark {
    var c := Load(s.row);
    var result := Apply(supported, s, op, 0).1;
    match op
    case SaveKey(_) => if result == Done then KeySaved else Quiet
    case Update(_, model) =>
      if result == Done && model.Some? && ModelName(Value(model.value)) != Some(c.model) then ModelChanged else Quiet
    case Revoke => KeyRevoked
    case Validate(succeeds) => if result != Done then Quiet else if succeeds then Validated(c.model) else ErrorRecorded
    case RecordError => ErrorRecorded
    case _ => Quiet
  }

  /** An operation and the time it happened. */
  datatype Call = Call(op: Op, at: int)

  function Run(supported: string -> bool, s: State, calls: seq<Call>): State {
    if calls == [] then s
    else
      var last := calls[|calls| - 1];
      Apply(supported, Run(supported, s, calls[..|calls| - 1]), last.op, last.at).0
  }

  function Marks(supported: string -> bool, s: State, calls: seq<Call>): (marks: seq<Mark>)
    ensures |marks| == |calls|
  {
    if calls == [] then []
    else
      var before := calls[..|calls| - 1];
      Marks(supported, s, before) + [MarkOf(supported, Run(supported, s, before), calls[|calls| - 1].op)]
  }

  /** The last mark that is not quiet. */
  function LastLoud(marks: seq<Mark>): Mark {
    if marks == [] then Quiet
    else if marks[|marks| - 1] != Quiet then marks[|marks| - 1]
    else LastLoud(marks[..|marks| - 1])
  }

  /** `LastLoud` is a mark after which there are only quiet ones. */
  lemma {:induction false} LastLoudIsLast(marks: seq<Mark>)
    ensures LastLoud(marks) == Quiet ==> forall k | 0 <= k < |marks| :: marks[k] == Quiet
    ensures LastLoud(marks) != Quiet ==>
      exists k :: 0 <= k < |marks| && marks[k] == LastLoud(marks) && forall j | k < j < |marks| :: marks[j] == Quiet
  {
    if marks != [] {
      var before := marks[..|marks| - 1];
      LastLoudIsLast(before);
      if marks[|marks| - 1] == Quiet && LastLoud(before) != Quiet {
        var k :| 0 <= k < |before| && before[k] == LastLoud(before)
          && forall j | k < j < |before| :: before[j] == Quiet;
        assert marks[k] == LastLoud(marks);
      }
    }
  }

  function LastMark(supported: string -> bool, s: State, calls: seq<Call>): Mark {
    LastLoud(Marks(supported, s, calls))
  }

  /** The stored validation tells the last mark of the history; `c0` is the configuration at its beginning. */
  predicate TellsHistory(c0: Config, c: Config, last: Mark) {
    match last
    case Quiet => c.status == c0.status && c.validatedModel == c0.validatedModel && c.model == c0.model
    case Validated(model) => c.status == Ready && c.validatedModel == Some(model) && c.model == model
    case ErrorRecorded => c.status == Error && c.validatedModel == None
    case _ => c.status == NotValidated && c.validatedModel == None
  }

  lemma UpdateTellsHistory(supported: string -> bool, s: State, enabled: Option<bool>, model: Option<string>, now: int,
                           c0: Config, last: Mark)
    requires TellsHistory(c0, Load(s.row), last)
    ensures var mark := MarkOf(supported, s, Update(enabled, model));
      TellsHistory(c0, Load(Apply(supported, s, Update(enabled, model), now).0.row),
                   if mark != Quiet then mark else last)
  {
    LoadIsNormal(s.row);
    var changed := WithModel(supported, s, Load(s.row), model);
    if changed.Some? {
      SaveLoad(if enabled.Some? then changed.value.(enabled := enabled.value) else changed.value);
    }
  }

  lemma ApplyTellsHistory(supported: string -> bool, s: State, op: Op, now: int, c0: Config, last: Mark)
    requires TellsHistory(c0, Load(s.row), last)
    ensures var mark := MarkOf(supported, s, op);
      TellsHistory(c0, Load(Apply(supported, s, op, now).0.row), if mark != Quiet then mark else last)
  {
    var c := Load(s.row);
    LoadIsNormal(s.row);
    var t := Apply(supported, s, op, now).0;
    match op
    case SaveKey(_) => SaveLoad(ClearedValidation(c));
    case Update(enabled, model) => UpdateTellsHistory(supported, s, enabled, model, now, c0, last);
    case Revoke => SaveLoad(ClearedValidation(c).(enabled := false, lastSuccessAt := None));
    case Validate(succeeds) => SaveLoad(Observed(c, now, succeeds, succeeds, !succeeds));
    case RecordSuccess => SaveLoad(Observed(c, now, false, true, false));
    case RecordError => SaveLoad(Observed(c, now, false, false, true));
    case _ =>
  }

  /** For every run from every stored row, readable or not. */
  lemma {:induction false} RunTellsHistory(supported: string -> bool, s: State, calls: seq<Call>)
    ensures TellsHistory(Load(s.row), Load(Run(supported, s, calls).row), LastMark(supported, s, calls))
  {
    if calls != [] {
      var before, last := calls[..|calls| - 1], calls[|calls| - 1];
      RunTellsHistory(supported, s, before);
      var marks := Marks(supported, s, calls);
      assert marks[..|marks| - 1] == Marks(supported, s, before);
      ApplyTellsHistory(supported, Run(supported, s, before), last.op, last.at, Load(s.row),
        LastMark(supported, s, before));
    }
  }

  // ---------- What the last calls left ----------

  /** A call, whether it succeeded, and whether it found another model than the one it names. */
  datatype Happening = Happening(op: Op, at: int, done: bool, changes: bool)

  function HappeningOf(supported: string -> bool, s: State, call: Call): Happening {
    Happening(call.op, call.at, Apply(supported, s, call.op, call.at).1 == Done,
              call.op.Update? && call.op.model.Some? && Strip(call.op.model.value) != Load(s.row).model)
  }

  function Happenings(supported: string -> bool, s: State, calls: seq<Call>): (r: seq<Happening>)
    ensures |r| == |calls|
  {
    if calls == [] then []
    else
      var before := calls[..|calls| - 1];
      Happenings(supported, s, before) + [HappeningOf(supported, Run(supported, s, before), calls[|calls| - 1])]
  }

  /** What a call does to one part of the state. */
  datatype Setting<T> = Keep | Set(value: T)

  /** The value that the last call to set it gave; before any, the one at first. */
  function Latest<T>(effect: Happening -> Setting<T>, first: T, happenings: seq<Happening>): T {
    if happenings == [] then first
    else
      var last := effect(happenings[|happenings| - 1]);
      if last.Set? then last.value else Latest(effect, first, happenings[..|happenings| - 1])
  }

  lemma {:induction false} LatestIs<T>(effect: Happening -> Setting<T>, first: T, happenings: seq<Happening>, k: nat)
    requires k < |happenings| && effect(happenings[k]).Set?
    requires forall j | k < j < |happenings| :: effect(happenings[j]) == Keep
    ensures Latest(effect, first, happenings) == effect(happenings[k]).value
  {
    if k < |happenings| - 1 {
      LatestIs(effect, first, happenings[..|happenings| - 1], k);
    }
  }

  /** The flag is what was last asked for; revoking clears it. */
  function EnabledBy(h: Happening): Setting<bool> {
    match h.op
    case Update(Some(enabled), _) => if h.done then Set(enabled) else Keep
    case Revoke => Set(false)
    case _ => Keep
  }

  /** There is an active key after it was saved, and none after it was revoked. */
  function KeyBy(h: Happening): Setting<bool> {
    match h.op
    case SaveKey(_) => if h.done then Set(true) else Keep
    case Revoke => Set(false)
    case _ => Keep
  }

  /** The model is the one that was last asked for, without white space around it. */
  function ModelBy(h: Happening): Setting<string> {
    match h.op
    case Update(_, Some(model)) => if h.done then Set(Strip(model)) else Keep
    case _ => Keep
  }

  /** Successful validations are dated; a new key or model, or none, takes the date away. */
  function ValidatedAtBy(h: Happening): Setting<Option<int>> {
    match h.op
    case Validate(succeeds) => if h.done && succeeds then Set(Some(h.at)) else Keep
    case SaveKey(_) => if h.done then Set(None) else Keep
    case Update(_, _) => if h.done && h.changes then Set(None) else Keep
    case Revoke => Set(None)
    case _ => Keep
  }

  /** So are uses and validations that succeed; only revoking takes that date away. */
  function SuccessAtBy(h: Happening): Setting<Option<int>> {
    match h.op
    case Validate(succeeds) => if h.done && succeeds then Set(Some(h.at)) else Keep
    case RecordSuccess => Set(Some(h.at))
    case Revoke => Set(None)
    case _ => Keep
  }

  /** And failures; any success takes that date away. */
  function ErrorAtBy(h: Happening): Setting<Option<int>> {
    match h.op
    case Validate(succeeds) => if h.done then Set(if succeeds then None else Some(h.at)) else Keep
    case RecordSuccess => Set(None)
    case RecordError => Set(Some(h.at))
    case SaveKey(_) => if h.done then Set(None) else Keep
    case Update(_, _) => if h.done && h.changes then Set(None) else Keep
    case Revoke => Set(None)
    case _ => Keep
  }

  /** The catalogue is the last one fetched; a new key, or none, empties the cache. */
  function CatalogBy(h: Happening): Setting<Option<set<string>>> {
    match h.op
    case CatalogFetched(models) => Set(Some(models))
    case CatalogLost => Set(None)
    case SaveKey(_) => if h.done then Set(None) else Keep
    case Revoke => Set(None)
    case _ => Keep
  }

  function StoreBy(h: Happening): Setting<bool> {
    match h.op
    case EncryptionKeySet(available) => Set(available)
    case _ => Keep
  }

  function After<T>(setting: Setting<T>, before: T): T {
    if setting.Set? then setting.value else before
  }

  ghost predicate ConfigFollows(c: Config, d: Config, h: Happening) {
    && d.enabled == After(EnabledBy(h), c.enabled)
    && d.model == After(ModelBy(h), c.model)
    && d.lastValidatedAt == After(ValidatedAtBy(h), c.lastValidatedAt)
    && d.lastSuccessAt == After(SuccessAtBy(h), c.lastSuccessAt)
    && d.lastErrorAt == After(ErrorAtBy(h), c.lastErrorAt)
  }

  lemma UpdateFollows(supported: string -> bool, s: State, enabled: Option<bool>, model: Option<string>, at: int)
    ensures ConfigFollows(Load(s.row), Load(Apply(supported, s, Update(enabled, model), at).0.row),
                          HappeningOf(supported, s, Call(Update(enabled, model), at)))
  {
    hide Strip, IsModelName, Load, Save;
    LoadIsNormal(s.row);
    var changed := WithModel(supported, s, Load(s.row), model);
    if changed.Some? {
      SaveLoad(if enabled.Some? then changed.value.(enabled := enabled.value) else changed.value);
    }
  }

  lemma CallFollows(supported: string -> bool, s: State, call: Call)
    ensures ConfigFollows(Load(s.row), Load(Apply(supported, s, call.op, call.at).0.row),
                          HappeningOf(supported, s, call))
  {
    hide Strip, IsModelName, Load, Save;
    var c := Load(s.row);
    LoadIsNormal(s.row);
    match call.op
    case SaveKey(_) => SaveLoad(ClearedValidation(c));
    case Update(enabled, model) => UpdateFollows(supported, s, enabled, model, call.at);
    case Revoke => SaveLoad(ClearedValidation(c).(enabled := false, lastSuccessAt := None));
    case Validate(succeeds) => SaveLoad(Observed(c, call.at, succeeds, succeeds, !succeeds));
    case RecordSuccess => SaveLoad(Observed(c, call.at, false, true, false));
    case RecordError => SaveLoad(Observed(c, call.at, false, false, true));
    case _ =>
  }

  /** The rest of the state. */
  lemma OthersFollow(supported: string -> bool, s: State, call: Call)
    ensures var t, h := Apply(supported, s, call.op, call.at).0, HappeningOf(supported, s, call);
      && (t.secret == Active) == After(KeyBy(h), s.secret == Active)
      && t.catalog == After(CatalogBy(h), s.catalog)
      && t.storeAvailable == After(StoreBy(h), s.storeAvailable)
  {
  }

  /** After every run, from every stored row, each part of the state is what the last call to set it left. */
  lemma {:induction false} RunTellsSettings(supported: string -> bool, s: State, calls: seq<Call>)
    ensures var t, c, c0, hs := Run(supported, s, calls), Load(Run(supported, s, calls).row), Load(s.row),
                                Happenings(supported, s, calls);
      && c.enabled == Latest(EnabledBy, c0.enabled, hs)
      && c.model == Latest(ModelBy, c0.model, hs)
      && c.lastValidatedAt == Latest(ValidatedAtBy, c0.lastValidatedAt, hs)
      && c.lastSuccessAt == Latest(SuccessAtBy, c0.lastSuccessAt, hs)
      && c.lastErrorAt == Latest(ErrorAtBy, c0.lastErrorAt, hs)
      && (t.secret == Active) == Latest(KeyBy, s.secret == Active, hs)
      && t.catalog == Latest(CatalogBy, s.catalog, hs)
      && t.storeAvailable == Latest(StoreBy, s.storeAvailable, hs)
  {
    hide Apply, Load, EnabledBy, ModelBy, ValidatedAtBy, SuccessAtBy, ErrorAtBy, KeyBy, CatalogBy, StoreBy;
    if calls != [] {
      var before, last := calls[..|calls| - 1], calls[|calls| - 1];
      RunTellsSettings(supported, s, before);
      var hs := Happenings(supported, s, calls);
      assert hs[..|hs| - 1] == Happenings(supported, s, before);
      CallFollows(supported, Run(supported, s, before), last);
      OthersFollow(supported, Run(supported, s, before), last);
    }
  }

  /** A call that raises, or does not check, changes nothing. */
  lemma RefusedChangesNothing(supported: string -> bool, s: State, op: Op, now: int)
    ensures Apply(supported, s, op, now).1 != Done ==> Apply(supported, s, op, now).0 == s
  {
  }

  /** Which calls are accepted. */
  lemma AcceptedIff(supported: string -> bool, s: State, op: Op, now: int)
    ensures var c, done := Load(s.row), Apply(supported, s, op, now).1 == Done;
      match op
      case SaveKey(key) => done <==> s.storeAvailable && 20 <= |Strip(key)| <= 500
      case Update(enabled, model) => done <==>
        && (model.Some? ==>
             && IsModelName(Strip(model.value))
             && (Strip(model.value) != c.model ==>
                  supported(Strip(model.value)) && s.catalog.Some? && Strip(model.value) in s.catalog.value))
        && (enabled == Some(true) ==>
             && s.storeAvailable && s.secret == Active && c.status == Ready && c.validatedModel == Some(c.model)
             && (s.catalog.Some? ==> c.model in s.catalog.value))
      case Validate(_) => done <==> s.storeAvailable && s.secret == Active && supported(c.model)
      case _ => done
  {
  }

  /**
   Starting without a row: when `safe_to_use` is true, the last thing to happen to the key, the model or the
   validation was a successful validation of the very model that is configured.
   */
  lemma SafeMeansValidated(supported: string -> bool, s: State, calls: seq<Call>)
    requires s.row == None
    ensures var t := Run(supported, s, calls);
      SafeToUse(supported, t) ==> LastMark(supported, s, calls) == Validated(Load(t.row).model)
  {
    RunTellsHistory(supported, s, calls);
  }

  /** Exactly when the stored status is ready: starting without a row. */
  lemma ReadyIffValidated(supported: string -> bool, s: State, calls: seq<Call>)
    requires s.row == None
    ensures var c := Load(Run(supported, s, calls).row);
      && (c.status == Ready <==> LastMark(supported, s, calls) == Validated(c.model))
      && (c.status == Error <==> LastMark(supported, s, calls) == ErrorRecorded)
      && (c.status == Ready <==> c.validatedModel.Some?)
      && (c.validatedModel.Some? ==> c.validatedModel.value == c.model)
  {
    RunTellsHistory(supported, s, calls);
  }

  /** Without the redundant tests: what has to hold for OpenAI to be used, on any stored row. */
  lemma SafeToUseIff(supported: string -> bool, s: State)
    ensures var c := Load(s.row);
      SafeToUse(supported, s) <==>
        && s.storeAvailable && s.secret == Active && c.enabled && supported(c.model)
        && (s.catalog.None? || c.model in s.catalog.value)
        && c.status == Ready && c.validatedModel == Some(c.model)
  {
  }

  /**
   Enabling checks the stored configuration, so a new model in the same call escapes the check: after a
   successful call that enables, OpenAI can be used exactly when the model stayed and is supported.
   */
  lemma SafeAfterEnabling(supported: string -> bool, s: State, model: Option<string>, now: int)
    requires Apply(supported, s, Update(Some(true), model), now).1 == Done
    ensures var t := Apply(supported, s, Update(Some(true), model), now).0; var c := Load(s.row);
      && Load(t.row).enabled
      && (SafeToUse(supported, t) <==>
            (model.None? || ModelName(Value(model.value)) == Some(c.model)) && supported(c.model))
  {
    var c := Load(s.row);
    LoadIsNormal(s.row);
    SaveLoad(WithModel(supported, s, c, model).value.(enabled := true));
  }

  /** An enabled configuration that is not validated, after a successful call. */
  lemma EnabledNeedNotBeReady()
    ensures var supported := (m: string) => true;
      var row := Stored(Value(false), Value("gpt-5-mini"), Value("ready"), Value("gpt-5-mini"), None, None, None);
      var s := State(Some(row),
                     Active, true, Some({"gpt-5-mini", "gpt-5.4-mini"}));
      var (t, result) := Apply(supported, s, Update(Some(true), Some("gpt-5.4-mini")), 0);
      result == Done && Load(t.row).enabled && Load(t.row).status == NotValidated && !SafeToUse(supported, t)
  {
    ModelNamesAreStripped("gpt-5-mini");
    ModelNamesAreStripped("gpt-5.4-mini");
    var supported := (m: string) => true;
    var row := Stored(Value(false), Value("gpt-5-mini"), Value("ready"), Value("gpt-5-mini"), None, None, None);
    var s := State(Some(row),
                   Active, true, Some({"gpt-5-mini", "gpt-5.4-mini"}));
    assert Load(s.row) == Config(false, "gpt-5-mini", Ready, Some("gpt-5-mini"), None, None, None);
    SafeAfterEnabling(supported, s, Some("gpt-5.4-mini"), 0);
    SaveLoad(WithModel(supported, s, Load(s.row), Some("gpt-5.4-mini")).value.(enabled := true));
  }

  // ---------- The operations as they are written ----------

  /** The stored state of one user. */
  class Account {
    var row: Option<StoredConfig>
    var secret: Secret
    var storeAvailable: bool
    var catalog: Option<set<string>>

    function Snapshot(): State
      reads this
    {
      State(row, secret, storeAvailable, catalog)
    }

    /** `save_openai_credentials` */
    method SaveCredentials(supported: string -> bool, key: string) returns (r: Result)
      modifies this
      ensures (Snapshot(), r) == Apply(supported, old(Snapshot()), SaveKey(key), 0)
    {
      if !storeAvailable {
        return Raised;
      }
      var stripped := Strip(key);
      if |stripped| < MIN_KEY_LENGTH || |stripped| > MAX_KEY_LENGTH {
        return Raised;
      }
      secret := Active;
      catalog := None;
      var config := Load(row);
      config := config.(status := NotValidated);
      config := config.(validatedModel := None);
      config := config.(lastValidatedAt := None);
      config := config.(lastErrorAt := None);
      row := Save(config);
      r := Done;
    }

    /** `update_openai_settings` */
    method UpdateSettings(supported: string -> bool, enabled: Option<bool>, model: Option<string>) returns (r: Result)
      modifies this`row
      ensures (Snapshot(), r) == Apply(supported, old(Snapshot()), Update(enabled, model), 0)
    {
      var config := Load(row);
      if model.Some? {
        var validated := ModelName(Value(model.value));
        if validated.None? {
          return Raised;
        }
        if validated.value != config.model {
          if !supported(validated.value) {
            return Raised;
          }
          if catalog.None? || validated.value !in catalog.value {
            return Raised;
          }
          config := config.(model := validated.value);
          config := config.(status := NotValidated, validatedModel := None);
          config := config.(lastValidatedAt := None, lastErrorAt := None);
        }
      }
      if enabled.Some? {
        if enabled.value && !MayEnable(Snapshot()) {
          return Raised;
        }
        config := config.(enabled := enabled.value);
      }
      row := Save(config);
      r := Done;
    }

    /** `revoke_openai_credentials` */
    method RevokeCredentials(supported: string -> bool) returns (r: Result)
      modifies this
      ensures (Snapshot(), r) == Apply(supported, old(Snapshot()), Revoke, 0)
    {
      catalog := None;
      if secret != NoSecret {
        secret := Revoked;
      }
      var config := Load(row);
      config := config.(enabled := false, status := NotValidated, validatedModel := None);
      config := config.(lastValidatedAt := None, lastSuccessAt := None, lastErrorAt := None);
      row := Save(config);
      r := Done;
    }

    /** `_record_observation` */
    method RecordObservation(now: int, validated: bool, success: bool, error: bool)
      modifies this`row
      ensures Snapshot() == old(Snapshot()).(row := Save(Observed(Load(old(row)), now, validated, success, error)))
    {
      var config := Load(row);
      if validated {
        config := config.(lastValidatedAt := Some(now));
        config := config.(validatedModel := Some(config.model));
      }
      if success {
        if validated {
          config := config.(status := Ready);
        }
        config := config.(lastSuccessAt := Some(now));
        config := config.(lastErrorAt := None);
      }
      if error {
        config := config.(status := Error);
        config := config.(validatedModel := None);
        config := config.(lastErrorAt := Some(now));
      }
      row := Save(config);
    }

    /** `validate_llm`; `succeeds` is what the provider answers. */
    method ValidateLlm(supported: string -> bool, succeeds: bool, now: int) returns (r: Result)
      modifies this`row
      ensures (Snapshot(), r) == Apply(supported, old(Snapshot()), Validate(succeeds), now)
    {
      if !KeyConfigured(Snapshot()) {
        return NotChecked;
      }
      if !supported(Load(row).model) {
        return NotChecked;
      }
      if !succeeds {
        RecordObservation(now, false, false, true);
      } else {
        RecordObservation(now, true, true, false);
      }
      r := Done;
    }
  }
}
