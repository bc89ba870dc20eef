/** Presets: the registry checks at startup and on hot reload, and how a request resolves to
    a provider and a model. */
module Presets {
  import opened Text
  import opened Wrappers

  // ---------------------------------------------------------------- model allow-lists

  datatype ModelList = ModelList(default: string, allowed: seq<string>)

  /** `raw.split(sep)` with `acc` the piece being read. */
  function SplitOn(raw: string, sep: char, acc: string): seq<string>
    decreases |raw|
  {
    if raw == "" then [acc]
    else if raw[0] == sep then [acc] + SplitOn(raw[1..], sep, "")
    else SplitOn(raw[1..], sep, acc + [raw[0]])
  }

  /** `_load_provider_model_list`, from the raw values of the two environment variables. */
  function LoadModelList(rawDefault: string, rawAllowed: string): ModelList {
    var default, csv := Strip(rawDefault), Strip(rawAllowed);
    var allowed := if csv == "" then [default] else StripAll(SplitOn(csv, ',', ""));
    ModelList(default, if default in allowed then allowed else [default] + allowed)
  }

  ghost predicate AllStripped(names: seq<string>) {
    forall i | 0 <= i < |names| :: Stripped(names[i])
  }

  /** What every loaded list guarantees: the default is allowed and no name has outer whitespace. */
  ghost predicate Usable(m: ModelList) {
    m.default in m.allowed && AllStripped(m.allowed)
  }

  lemma NamesAreStripped(names: seq<string>)
    ensures AllStripped(StripAll(names))
  {
    StripAllSpec(names);
  }

  lemma OneMoreStripped(name: string, names: seq<string>)
    requires Stripped(name) && AllStripped(names)
    ensures AllStripped([name] + names) && AllStripped([name])
  {
    hide Stripped;
  }

  lemma LoadedListIsUsable(rawDefault: string, rawAllowed: string)
    ensures Usable(LoadModelList(rawDefault, rawAllowed))
  {
    hide Strip, StripAll, SplitOn, Stripped, AllStripped;
    var names := SplitOn(Strip(rawAllowed), ',', "");
    StripSpec(rawDefault);
    NamesAreStripped(names);
    OneMoreStripped(Strip(rawDefault), StripAll(names));
  }

  /** The pieces of a string, with `sep` between them again. */
  function JoinOn(pieces: seq<string>, sep: char): string {
    if pieces == [] then "" else if |pieces| == 1 then pieces[0] else pieces[0] + [sep] + JoinOn(pieces[1..], sep)
  }

  /** Splitting cuts at every separator and nowhere else. */
  lemma {:induction false} SplitOnSpec(raw: string, sep: char, acc: string)
    requires sep !in acc
    ensures SplitOn(raw, sep, acc) != []
    ensures forall p | p in SplitOn(raw, sep, acc) :: sep !in p
    ensures JoinOn(SplitOn(raw, sep, acc), sep) == acc + raw
    decreases |raw|
  {
    if raw == "" {
      assert acc + raw == acc;
    } else if raw[0] == sep {
      var rest := SplitOn(raw[1..], sep, "");
      SplitOnSpec(raw[1..], sep, "");
      assert ([acc] + rest)[1..] == rest;
      assert acc + [sep] + ("" + raw[1..]) == acc + raw;
    } else {
      SplitOnSpec(raw[1..], sep, acc + [raw[0]]);
      assert acc + [raw[0]] + raw[1..] == acc + raw;
    }
  }

  lemma {:induction false} StripAllMembers(ss: seq<string>, x: string)
    ensures x in StripAll(ss) <==> x != "" && exists p :: p in ss && Strip(p) == x
  {
    if ss != [] {
      StripAllMembers(ss[1..], x);
      hide Strip;
      assert forall p :: p in ss <==> p == ss[0] || p in ss[1..];
    }
  }

  /** What a loaded list holds: the default, the names listed between commas with outer
      whitespace cut off, blank ones left out, and nothing else. */
  lemma LoadedListIs(rawDefault: string, rawAllowed: string, x: string)
    ensures var m := LoadModelList(rawDefault, rawAllowed);
      var pieces := SplitOn(Strip(rawAllowed), ',', "");
      && m.default == Strip(rawDefault)
      && JoinOn(pieces, ',') == Strip(rawAllowed) && (forall p | p in pieces :: ',' !in p)
      && (x in m.allowed <==> x == m.default || (x != "" && exists p :: p in pieces && Strip(p) == x))
  {
    var csv := Strip(rawAllowed);
    SplitOnSpec(csv, ',', "");
    assert "" + csv == csv;
    StripAllMembers(SplitOn(csv, ',', ""), x);
    if csv == "" {
      assert SplitOn(csv, ',', "") == [""];
      assert Strip("") == "";
    }
    hide Strip, StripAll, SplitOn, JoinOn;
  }

  datatype Settings = Settings(defaultPreset: string, mlx: ModelList, voxtral: ModelList, vllm: ModelList)

  const MLX := "mlx_audio"
  const VOXTRAL := "voxtral"
  const VLLM := "vllm-omni"

  /** `tts_model_default_for_provider` and `tts_model_allowed_for_provider`. */
  function ModelsFor(s: Settings, provider: string): ModelList {
    if provider == VLLM then s.vllm else if provider == VOXTRAL then s.voxtral else s.mlx
  }

  ghost predicate SettingsUsable(s: Settings) {
    Usable(s.mlx) && Usable(s.voxtral) && Usable(s.vllm)
  }

  /** `_allow_lists_from_settings` for the registered providers. */
  function AllowLists(s: Settings, registered: set<string>): map<string, seq<string>> {
    map name | name in {MLX, VOXTRAL, VLLM} && name in registered :: ModelsFor(s, name).allowed
  }

  // ---------------------------------------------------------------- registry and requests

  /** The knobs a preset or a request may set. */
  datatype Knobs = Knobs(
    provider: Option<string>, model: Option<string>, voice: Option<string>,
    language: Option<string>, numberLang: Option<string>,
    temperature: Option<real>, topP: Option<real>, normalizeDb: Option<real>, maxSentences: Option<int>)

  type Registry = map<string, Knobs>

  /** What `load_preset_registry` makes of the file on disk. */
  datatype PresetFile = Unparsable | Parsed(presets: Registry)

  function Load(file: PresetFile): Option<Registry> {
    if file.Parsed? && file.presets.Keys != {} then Some(file.presets) else None
  }

  /** One preset under `validate_preset_providers`; a model without a provider is not checked. */
  predicate PinValid(k: Knobs, allow: map<string, seq<string>>) {
    k.provider.Some? ==>
      && k.provider.value in allow
      && (k.model.Some? ==> k.model.value in allow[k.provider.value])
  }

  predicate PinsValid(r: Registry, allow: map<string, seq<string>>) {
    forall name | name in r :: PinValid(r[name], allow)
  }

  /** A registry that may go live. */
  predicate Acceptable(r: Registry, s: Settings, registered: set<string>) {
    s.defaultPreset in r && PinsValid(r, AllowLists(s, registered))
  }

  datatype StartupError = UnsafePermissions | PresetsInvalid | ProviderInvalid

  datatype Startup = Started(live: Registry) | Exit(error: StartupError)

  /** `initialize_preset_registry`: permissions first, then parse, default preset, pins. */
  function Initialize(file: PresetFile, permissionsSafe: bool, s: Settings, registered: set<string>): Startup {
    if !permissionsSafe then Exit(UnsafePermissions)
    else
      var loaded := Load(file);
      if loaded.None? then Exit(PresetsInvalid)
      else if s.defaultPreset !in loaded.value then Exit(PresetsInvalid)
      else if !PinsValid(loaded.value, AllowLists(s, registered)) then Exit(ProviderInvalid)
      else Started(loaded.value)
  }

  /** The live registry after one reload of `file`. */
  function Reloaded(live: Registry, file: PresetFile, s: Settings, registered: set<string>): Registry {
    var loaded := Load(file);
    if loaded.Some? && Acceptable(loaded.value, s, registered) then loaded.value else live
  }

  /** A preset in raw terms: what it pins is a registered provider this service knows, and a
      model that provider's own list allows. */
  predicate GoodPreset(k: Knobs, s: Settings, registered: set<string>) {
    k.provider.Some? ==>
      && k.provider.value in registered
      && (if k.provider.value == "mlx_audio" then k.model.Some? ==> k.model.value in s.mlx.allowed
          else if k.provider.value == "voxtral" then k.model.Some? ==> k.model.value in s.voxtral.allowed
          else k.provider.value == "vllm-omni" && (k.model.Some? ==> k.model.value in s.vllm.allowed))
  }

  predicate GoodFile(file: PresetFile, s: Settings, registered: set<string>) {
    file.Parsed? && s.defaultPreset in file.presets
    && forall name | name in file.presets :: GoodPreset(file.presets[name], s, registered)
  }

  lemma PinValidIff(k: Knobs, s: Settings, registered: set<string>)
    ensures PinValid(k, AllowLists(s, registered)) <==> GoodPreset(k, s, registered)
  { }

  /** Startup succeeds exactly on safe permissions and a good file, and goes live with it;
      otherwise the first check that fails decides the exit. */
  lemma StartsIffGood(file: PresetFile, permissionsSafe: bool, s: Settings, registered: set<string>)
    ensures var start := Initialize(file, permissionsSafe, s, registered);
      && (start.Started? <==> permissionsSafe && GoodFile(file, s, registered))
      && (start.Started? ==> start.live == file.presets)
      && (start == Exit(UnsafePermissions) <==> !permissionsSafe)
      && (start == Exit(PresetsInvalid)
          <==> permissionsSafe && (file.Unparsable? || s.defaultPreset !in file.presets))
  {
    forall k: Knobs | true ensures PinValid(k, AllowLists(s, registered)) <==> GoodPreset(k, s, registered) {
      PinValidIff(k, s, registered);
    }
    hide PinValid, GoodPreset, AllowLists;
  }

  /** A reload goes live exactly with a good file. */
  lemma ReloadsIffGood(live: Registry, file: PresetFile, s: Settings, registered: set<string>)
    ensures Reloaded(live, file, s, registered) == if GoodFile(file, s, registered) then file.presets else live
  {
    forall k: Knobs | true ensures PinValid(k, AllowLists(s, registered)) <==> GoodPreset(k, s, registered) {
      PinValidIff(k, s, registered);
    }
    hide PinValid, GoodPreset, AllowLists;
  }

  class PresetRegistryReloader {
    const settings: Settings
    const registered: set<string>
    var live: Registry

    constructor (s: Settings, r: set<string>, startup: Registry)
      ensures settings == s && registered == r && live == startup
    {
      settings := s;
      registered := r;
      live := startup;
    }

    method ReloadOnce(file: PresetFile)
      modifies this
      ensures live == Reloaded(old(live), file, settings, registered)
    {
      var loaded := Load(file);
      if loaded.None? {
        return;
      }
      if settings.defaultPreset !in loaded.value {
        return;
      }
      if !PinsValid(loaded.value, AllowLists(settings, registered)) {
        return;
      }
      live := loaded.value;
    }
  }

  function AfterReloads(live: Registry, files: seq<PresetFile>, s: Settings, registered: set<string>): Registry {
    if files == [] then live
    else Reloaded(AfterReloads(live, files[..|files| - 1], s, registered), files[|files| - 1], s, registered)
  }

  predicate AcceptableFile(file: PresetFile, s: Settings, registered: set<string>) {
    file.Parsed? && Acceptable(file.presets, s, registered)
  }

  ghost predicate NoneAcceptable(files: seq<PresetFile>, from: nat, s: Settings, registered: set<string>) {
    forall j | from <= j < |files| :: !AcceptableFile(files[j], s, registered)
  }

  /** File `i` was acceptable, no later one was, and its presets are live. */
  ghost predicate LastAt(i: nat, files: seq<PresetFile>, live: Registry, s: Settings, registered: set<string>) {
    i < |files| && files[i] == Parsed(live) && AcceptableFile(files[i], s, registered)
    && NoneAcceptable(files, i + 1, s, registered)
  }

  /** `live` is the last acceptable one of `files`, or the startup registry. */
  ghost predicate LastAcceptable(start: Registry, files: seq<PresetFile>, live: Registry,
                                 s: Settings, registered: set<string>) {
    (live == start && NoneAcceptable(files, 0, s, registered)) || exists i :: LastAt(i, files, live, s, registered)
  }

  lemma ReloadedSpec(live: Registry, file: PresetFile, s: Settings, registered: set<string>)
    ensures Reloaded(live, file, s, registered) == if AcceptableFile(file, s, registered) then file.presets else live
  { }

  lemma AcceptableAppended(start: Registry, front: seq<PresetFile>, last: PresetFile,
                           s: Settings, registered: set<string>)
    requires AcceptableFile(last, s, registered)
    ensures LastAcceptable(start, front + [last], last.presets, s, registered)
  {
    hide Acceptable;
    assert LastAt(|front|, front + [last], last.presets, s, registered);
  }

  lemma UnacceptableAppended(start: Registry, front: seq<PresetFile>, last: PresetFile, live: Registry,
                             s: Settings, registered: set<string>)
    requires !AcceptableFile(last, s, registered) && LastAcceptable(start, front, live, s, registered)
    ensures LastAcceptable(start, front + [last], live, s, registered)
  {
    hide AcceptableFile;
    if i :| LastAt(i, front, live, s, registered) {
      assert LastAt(i, front + [last], live, s, registered);
    }
  }

  /** Over any reload history the live registry is the last acceptable file seen, or the one
      the service started with, and it is always acceptable. */
  lemma {:induction false} LiveIsLastAcceptable(file: PresetFile, permissionsSafe: bool, files: seq<PresetFile>,
                                                s: Settings, registered: set<string>)
    requires Initialize(file, permissionsSafe, s, registered).Started?
    ensures var start := Initialize(file, permissionsSafe, s, registered).live;
      var live := AfterReloads(start, files, s, registered);
      Acceptable(live, s, registered) && LastAcceptable(start, files, live, s, registered)
  {
    var start := Initialize(file, permissionsSafe, s, registered).live;
    if files == [] {
    } else {
      hide Acceptable, Initialize, Reloaded, LastAcceptable;
      var front, last := files[..|files| - 1], files[|files| - 1];
      var live := AfterReloads(start, front, s, registered);
      LiveIsLastAcceptable(file, permissionsSafe, front, s, registered);
      ReloadedSpec(live, last, s, registered);
      assert files == front + [last];
      if AcceptableFile(last, s, registered) {
        AcceptableAppended(start, front, last, s, registered);
      } else {
        UnacceptableAppended(start, front, last, live, s, registered);
      }
    }
  }

  // ---------------------------------------------------------------- resolution

  datatype Request = Request(preset: Option<string>, knobs: Knobs)

  datatype Rejection = PresetUnknown | UnsupportedProvider | UnknownModel

  datatype Field =
    Provider | Model | Voice | Language | NumberLang | Temperature | TopP | NormalizeDb | MaxSentences

  /** The synthesis configuration a request resolves to, and the fields in which it overrides
      a value its preset pins. */
  datatype Effective = Effective(knobs: Knobs, overrides: set<Field>)

  function Pick<T>(explicit: Option<T>, preset: Option<T>): Option<T> {
    if explicit.Some? then explicit else preset
  }

  datatype Value = Name(text: string) | Amount(x: real) | Count(n: int)

  function AsName(o: Option<string>): Option<Value> {
    if o.Some? then Some(Name(o.value)) else None
  }

  function AsAmount(o: Option<real>): Option<Value> {
    if o.Some? then Some(Amount(o.value)) else None
  }

  /** What `k` sets a field to. */
  function Get(k: Knobs, field: Field): Option<Value> {
    match field
    case Provider => AsName(k.provider)
    case Model => AsName(k.model)
    case Voice => AsName(k.voice)
    case Language => AsName(k.language)
    case NumberLang => AsName(k.numberLang)
    case Temperature => AsAmount(k.temperature)
    case TopP => AsAmount(k.topP)
    case NormalizeDb => AsAmount(k.normalizeDb)
    case MaxSentences => if k.maxSentences.Some? then Some(Count(k.maxSentences.value)) else None
  }

  /** The fields in which explicit values conflict with pinned ones. */
  function Overrides(e: Knobs, d: Knobs): set<Field> {
    set field: Field | Get(e, field).Some? && Get(d, field).Some? && Get(e, field) != Get(d, field)
  }

  /** The explicit values over a preset's, field by field. */
  function Merge(e: Knobs, d: Knobs): Knobs {
    Knobs(Pick(e.provider, d.provider), Pick(e.model, d.model), Pick(e.voice, d.voice),
          Pick(e.language, d.language), Pick(e.numberLang, d.numberLang),
          Pick(e.temperature, d.temperature), Pick(e.topP, d.topP),
          Pick(e.normalizeDb, d.normalizeDb), Pick(e.maxSentences, d.maxSentences))
  }

  /** `resolve_preset` */
  function ResolvePreset(r: Request, snapshot: Registry, s: Settings): Result<Effective, Rejection> {
    var name := if r.preset.Some? then r.preset.value else s.defaultPreset;
    if name !in snapshot then Err(PresetUnknown)
    else Ok(Effective(Merge(r.knobs, snapshot[name]), Overrides(r.knobs, snapshot[name])))
  }

  lemma MergedField(e: Knobs, d: Knobs, field: Field)
    ensures Get(Merge(e, d), field) == if Get(e, field).Some? then Get(e, field) else Get(d, field)
  { }

  lemma MergeAgain(e: Knobs, d: Knobs)
    ensures Merge(Merge(e, d), d) == Merge(e, d)
    ensures Overrides(Merge(e, d), d) == Overrides(e, d)
  {
    hide Get;
    forall field: Field | true ensures field in Overrides(Merge(e, d), d) <==> field in Overrides(e, d) {
      MergedField(e, d, field);
    }
  }

  /** Precedence, for any mix of set and unset fields: a field takes the request's value if the
      request sets it and the preset's otherwise; it is reported as overridden exactly when the
      preset pins it and its effective value is not the pinned one; and resolving an already
      resolved request again changes nothing. */
  lemma ExplicitFieldsWin(r: Request, snapshot: Registry, s: Settings, field: Field)
    requires ResolvePreset(r, snapshot, s).Ok?
    ensures var resolved := ResolvePreset(r, snapshot, s).value;
      var preset := snapshot[if r.preset.Some? then r.preset.value else s.defaultPreset];
      var effective := Get(resolved.knobs, field);
      && effective == (if Get(r.knobs, field).Some? then Get(r.knobs, field) else Get(preset, field))
      && (field in resolved.overrides <==> Get(preset, field).Some? && effective != Get(preset, field))
      && ResolvePreset(r.(knobs := resolved.knobs), snapshot, s) == Ok(resolved)
  {
    hide Merge, Get;
    var preset := snapshot[if r.preset.Some? then r.preset.value else s.defaultPreset];
    MergedField(r.knobs, preset, field);
    MergeAgain(r.knobs, preset);
  }

  /** `(value or "").strip() or fallback` */
  function NonBlankOr(value: Option<string>, fallback: string): string {
    var text := if value.Some? then Strip(value.value) else "";
    if text != "" then text else fallback
  }

  datatype Target = Target(provider: string, model: string)

  /** `_resolve_provider_and_model`; `selected` is the provider chosen at startup. */
  function ResolveTarget(k: Knobs, s: Settings, registered: set<string>, selected: string): Result<Target, Rejection> {
    var provider := NonBlankOr(k.provider, selected);
    if provider !in registered then Err(UnsupportedProvider)
    else
      var models := ModelsFor(s, provider);
      var model := NonBlankOr(k.model, models.default);
      if models.allowed != [] && model !in models.allowed then Err(UnknownModel)
      else Ok(Target(provider, model))
  }

  /** Preset first, then target: how `synthesize_core` resolves a request. */
  function ResolveRequest(r: Request, snapshot: Registry, s: Settings, registered: set<string>,
                          selected: string): Result<Target, Rejection> {
    match ResolvePreset(r, snapshot, s)
    case Err(e) => Err(e)
    case Ok(effective) => ResolveTarget(effective.knobs, s, registered, selected)
  }

  /** The name a value stands for, without outer whitespace; "" when there is none. */
  function NameIn(value: Option<string>): string {
    match value
    case None => ""
    case Some(text) => Strip(text)
  }

  /** What a request resolves to, in full. The provider is the one the request names, or else
      the preset, or else the selected one; the model likewise, or else that provider's own
      default. A blank name set in the request still hides the preset's. The request is
      rejected exactly when the preset is unknown, the provider not registered, or the model
      not on that provider's non-empty list. */
  lemma RequestResolvesTo(r: Request, snapshot: Registry, s: Settings, registered: set<string>, selected: string)
    ensures var t := ResolveRequest(r, snapshot, s, registered, selected);
      var name := match r.preset { case Some(n) => n case None => s.defaultPreset };
      && (t == Err(PresetUnknown) <==> name !in snapshot)
      && (name in snapshot ==>
          var namedProvider := NameIn(if r.knobs.provider.Some? then r.knobs.provider else snapshot[name].provider);
          var namedModel := NameIn(if r.knobs.model.Some? then r.knobs.model else snapshot[name].model);
          var provider := if namedProvider == "" then selected else namedProvider;
          var list := if provider == "vllm-omni" then s.vllm else if provider == "voxtral" then s.voxtral else s.mlx;
          var model := if namedModel == "" then list.default else namedModel;
          && (t == Err(UnsupportedProvider) <==> provider !in registered)
          && (t == Err(UnknownModel) <==> provider in registered && list.allowed != [] && model !in list.allowed)
          && (t.Ok? ==> t.value == Target(provider, model)))
  {
    hide Strip, Overrides;
  }

  /** A request that names no preset never gets `preset_unknown`. */
  lemma DefaultPresetAlwaysKnown(r: Request, file: PresetFile, permissionsSafe: bool, files: seq<PresetFile>,
                                 s: Settings, registered: set<string>)
    requires Initialize(file, permissionsSafe, s, registered).Started? && r.preset.None?
    ensures var start := Initialize(file, permissionsSafe, s, registered).live;
      ResolvePreset(r, AfterReloads(start, files, s, registered), s).Ok?
  {
    LiveIsLastAcceptable(file, permissionsSafe, files, s, registered);
  }

  lemma KnownNamesAreStripped()
    ensures Stripped(MLX) && Stripped(VOXTRAL) && Stripped(VLLM)
    ensures MLX != "" && VOXTRAL != "" && VLLM != ""
  { }

  lemma AllowedIsFixedByStrip(m: ModelList, name: string)
    requires Usable(m) && name in m.allowed
    ensures Strip(name) == name && NonBlankOr(Some(name), m.default) in m.allowed
  {
    StripSpec(name);
  }

  lemma ListedProvider(provider: string, s: Settings, registered: set<string>, selected: string)
    requires SettingsUsable(s) && provider in AllowLists(s, registered)
    ensures provider in registered && NonBlankOr(Some(provider), selected) == provider
    ensures AllowLists(s, registered)[provider] == ModelsFor(s, provider).allowed
    ensures Usable(ModelsFor(s, provider))
  {
    assert provider == MLX || provider == VOXTRAL || provider == VLLM;
    KnownNamesAreStripped();
    hide Strip, Stripped;
    StripSpec(provider);
  }

  lemma PinnedProviderResolves(k: Knobs, s: Settings, registered: set<string>, selected: string)
    requires SettingsUsable(s) && k.provider.Some? && PinValid(k, AllowLists(s, registered))
    ensures var t := ResolveTarget(k, s, registered, selected);
      && t.Ok? && t.value.provider == k.provider.value && t.value.provider in registered
      && t.value.model in ModelsFor(s, t.value.provider).allowed
      && (k.model.Some? && k.model.value != "" ==> t.value.model == k.model.value)
      && (k.model.None? ==> t.value.model == ModelsFor(s, k.provider.value).default)
  {
    hide AllowLists, ModelsFor, SettingsUsable, Strip, Stripped;
    var provider := k.provider.value;
    ListedProvider(provider, s, registered, selected);
    if k.model.Some? {
      AllowedIsFixedByStrip(ModelsFor(s, provider), k.model.value);
    }
  }

  /** Preset safety: under any preset of the live registry, after any reload history, a
      request that sets neither provider nor model resolves exactly when the preset is not a
      model-only one whose model the selected provider does not allow; and then the provider
      is registered and the model is on its allow-list. */
  lemma PresetOnlyRequestResolvesIff(r: Request, name: string, file: PresetFile, permissionsSafe: bool,
                                     files: seq<PresetFile>, s: Settings, registered: set<string>, selected: string)
    requires SettingsUsable(s) && selected in registered
    requires Initialize(file, permissionsSafe, s, registered).Started?
    requires r.knobs.provider.None? && r.knobs.model.None?
    requires name == if r.preset.Some? then r.preset.value else s.defaultPreset
    requires name in AfterReloads(Initialize(file, permissionsSafe, s, registered).live, files, s, registered)
    ensures var live := AfterReloads(Initialize(file, permissionsSafe, s, registered).live, files, s, registered);
      var preset := live[name];
      var k := ResolvePreset(r, live, s);
      && k.Ok?
      && var t := ResolveTarget(k.value.knobs, s, registered, selected);
      && (t.Ok? <==> preset.provider.Some? || preset.model.None? || Strip(preset.model.value) == ""
                     || Strip(preset.model.value) in ModelsFor(s, selected).allowed)
      && (t.Ok? ==> t.value.provider in registered && t.value.model in ModelsFor(s, t.value.provider).allowed)
      && (t.Ok? && preset.provider.Some? ==> t.value.provider == preset.provider.value)
      && (t.Ok? && preset.provider.None? ==> t.value.provider == selected)
      && (t.Ok? && preset.model.Some? && Strip(preset.model.value) != "" ==>
            t.value.model == Strip(preset.model.value))
      && (t.Ok? && (preset.model.None? || Strip(preset.model.value) == "") ==>
            t.value.model == ModelsFor(s, t.value.provider).default)
  {
    LiveIsLastAcceptable(file, permissionsSafe, files, s, registered);
    var live := AfterReloads(Initialize(file, permissionsSafe, s, registered).live, files, s, registered);
    var k := ResolvePreset(r, live, s).value.knobs;
    assert k.provider == live[name].provider && k.model == live[name].model;
    if k.provider.Some? {
      assert PinValid(live[name], AllowLists(s, registered));
      PinnedProviderResolves(k, s, registered, selected);
    } else {
      assert Usable(ModelsFor(s, selected));
    }
  }
}
