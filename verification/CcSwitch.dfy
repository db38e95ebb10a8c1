/** The CC Switch import of acp/src/cc_switch.rs: models out of a profile's settings,
    a catalog with distinct provider names, and its merge into the configuration.
    Database and environment reads are inputs. */
module CcSwitch {
  import opened Text
  import opened ProviderNames

  // ----- settings -----------------------------------------------------------

  datatype Field = Value(text: string) | NotText

  type Env = map<string, Field>

  datatype CatalogItem = CatalogItem(id: Option<Field>, model: Option<Field>, name: Option<Field>)

  datatype Settings = Settings(env: Option<Env>, models: Option<seq<CatalogItem>>)

  datatype Model = Model(id: string, name: string, apiKey: Option<string>, baseUrl: Option<string>)

  datatype Provider = Provider(name: string, apiKey: Option<string>, baseUrl: Option<string>, models: seq<Model>)

  datatype Import = Import(provider: Provider, defaultModelId: string, title: string, viaProxy: bool)

  datatype Failure = NoEnv | NoToken | NoBaseUrl | NoModels

  datatype Result = Imported(value: Import) | Failed(reason: Failure)

  /** A text that is not blank, trimmed. */
  function NonEmpty(f: Option<Field>): (r: Option<string>)
    ensures r.Some? ==> r.value != ""
  {
    if f.Some? && f.value.Value? && Trim(f.value.text) != "" then Some(Trim(f.value.text)) else None
  }

  function Get(env: Env, key: string): Option<Field> { if key in env then Some(env[key]) else None }

  /** `first_non_empty_env` */
  function FirstNonEmpty(env: Env, keys: seq<string>): (r: Option<string>)
    ensures r.None? <==> forall i :: 0 <= i < |keys| ==> NonEmpty(Get(env, keys[i])).None?
  {
    if keys == [] then None
    else if NonEmpty(Get(env, keys[0])).Some? then NonEmpty(Get(env, keys[0]))
    else FirstNonEmpty(env, keys[1..])
  }

  /** The last opening bracket, or -1. */
  function LastBracket(s: string): (i: int)
    ensures -1 <= i < |s| && (i >= 0 ==> s[i] == '[') && forall k :: i < k < |s| ==> s[k] != '['
  {
    if s == "" then -1 else if s[|s| - 1] == '[' then |s| - 1 else LastBracket(s[..|s| - 1])
  }

  predicate ContextHint(hint: string) {
    var h := Trim(hint);
    |h| > 1 && h[|h| - 1] in ['k', 'K', 'm', 'M'] && forall i :: 0 <= i < |h| - 1 ==> IsDigit(h[i])
  }

  /** `anthropic_model_id`: the id without a context-window hint. */
  function ModelId(raw: string): string {
    var t := Trim(raw);
    var open := LastBracket(t);
    if open <= 0 || t[|t| - 1] != ']' || !ContextHint(t[open + 1..|t| - 1]) then t else Trim(t[..open])
  }

  function IdOf(f: Option<Field>): Option<string> {
    var text := NonEmpty(f);
    if text.Some? && ModelId(text.value) != "" then Some(ModelId(text.value)) else None
  }

  // ----- models -------------------------------------------------------------

  function Ids(models: seq<Model>): (ids: seq<string>)
    ensures |ids| == |models| && forall i :: 0 <= i < |models| ==> ids[i] == models[i].id
  {
    seq(|models|, i requires 0 <= i < |models| => models[i].id)
  }

  predicate DistinctTexts(xs: seq<string>) { forall i, j :: 0 <= i < j < |xs| ==> xs[i] != xs[j] }

  /** `ids` are the ids offered, each at its first occurrence. */
  ghost predicate FirstOccurrences(offered: seq<Option<string>>, ids: seq<string>) {
    && DistinctTexts(ids)
    && (forall id :: id in ids <==> Some(id) in offered)
    && (forall i, j :: 0 <= i < j < |ids| ==> Precedes(offered, ids[i], ids[j]))
  }

  /** `x` is offered before any `y`. */
  ghost predicate Precedes(offered: seq<Option<string>>, x: string, y: string) {
    exists k :: 0 <= k < |offered| && offered[k] == Some(x) && forall l :: 0 <= l < k ==> offered[l] != Some(y)
  }

  lemma OccurrencesSkip(offered: seq<Option<string>>, o: Option<string>, ids: seq<string>)
    requires FirstOccurrences(offered, ids) && (o.Some? ==> o.value in ids)
    ensures FirstOccurrences(offered + [o], ids)
  {
    forall i, j | 0 <= i < j < |ids| ensures Precedes(offered + [o], ids[i], ids[j]) {
      PrecedesLonger(offered, o, ids[i], ids[j]);
    }
  }

  lemma PrecedesLonger(offered: seq<Option<string>>, o: Option<string>, x: string, y: string)
    requires Precedes(offered, x, y)
    ensures Precedes(offered + [o], x, y)
  {
    var k :| 0 <= k < |offered| && offered[k] == Some(x) && forall l :: 0 <= l < k ==> offered[l] != Some(y);
    var more := offered + [o];
    assert more[k] == Some(x) && forall l :: 0 <= l < k ==> more[l] == offered[l];
  }

  lemma OccurrencesAdd(offered: seq<Option<string>>, id: string, ids: seq<string>)
    requires FirstOccurrences(offered, ids) && id !in ids
    ensures FirstOccurrences(offered + [Some(id)], ids + [id])
  {
    var more, all := offered + [Some(id)], ids + [id];
    forall i, j | 0 <= i < j < |all| ensures Precedes(more, all[i], all[j]) {
      if j < |ids| {
        PrecedesLonger(offered, Some(id), ids[i], ids[j]);
      } else {
        assert ids[i] in ids;
        var k :| 0 <= k < |offered| && offered[k] == Some(ids[i]);
        assert more[k] == Some(ids[i]) && forall l :: 0 <= l < k ==> more[l] == offered[l] && offered[l] in offered;
      }
    }
  }

  function ItemId(item: CatalogItem): Option<string> { IdOf(if item.id.Some? then item.id else item.model) }

  function ItemIds(items: seq<CatalogItem>): (ids: seq<Option<string>>)
    ensures |ids| == |items| && forall i :: 0 <= i < |items| ==> ids[i] == ItemId(items[i])
  {
    seq(|items|, i requires 0 <= i < |items| => ItemId(items[i]))
  }

  /** The model an item list gives an id: named by the first item with that id. */
  ghost predicate NamedByFirst(items: seq<CatalogItem>, m: Model) {
    exists i :: 0 <= i < |items| && FirstItem(items, i, m.id) && m == ModelOf(items[i], m.id)
  }

  predicate FirstItem(items: seq<CatalogItem>, i: nat, id: string)
    requires i < |items|
  {
    ItemId(items[i]) == Some(id) && forall j :: 0 <= j < i ==> ItemId(items[j]) != Some(id)
  }

  function ModelOf(item: CatalogItem, id: string): Model {
    var name := NonEmpty(item.name);
    Model(id, if name.Some? then name.value else id, None, None)
  }

  /** `models_from_catalog_array`: one model per id, in the order of first mention. */
  method ModelsFromCatalogArray(items: seq<CatalogItem>) returns (models: seq<Model>)
    ensures FirstOccurrences(ItemIds(items), Ids(models))
    ensures forall m :: m in models ==> NamedByFirst(items, m)
  {
    hide FirstOccurrences, ItemId, NonEmpty;
    var seen: set<string> := {};
    models := [];
    NoOccurrences();
    assert ItemIds(items[..0]) == [] && Ids(models) == [];
    for k := 0 to |items|
      invariant FirstOccurrences(ItemIds(items[..k]), Ids(models))
      invariant forall id :: id in seen <==> id in Ids(models)
      invariant forall m :: m in models ==> NamedByFirst(items, m)
    {
      var id := ItemId(items[k]);
      assert ItemIds(items[..k + 1]) == ItemIds(items[..k]) + [id];
      if id.None? || id.value in seen {
        OccurrencesSkip(ItemIds(items[..k]), id, Ids(models));
      } else {
        NotYetOffered(ItemIds(items[..k]), Ids(models), id.value);
        OccurrencesAdd(ItemIds(items[..k]), id.value, Ids(models));
        seen := seen + {id.value};
        var m := ModelOf(items[k], id.value);
        assert forall j :: 0 <= j < k ==> ItemIds(items[..k])[j] == ItemId(items[j]);
        assert FirstItem(items, k, m.id);
        assert Ids(models + [m]) == Ids(models) + [id.value];
        models := models + [m];
      }
    }
    assert items[..|items|] == items;
  }

  lemma NotYetOffered(offered: seq<Option<string>>, ids: seq<string>, id: string)
    requires FirstOccurrences(offered, ids) && id !in ids
    ensures forall j :: 0 <= j < |offered| ==> offered[j] != Some(id)
  {
    assert Some(id) !in offered;
  }

  lemma NoOccurrences()
    ensures FirstOccurrences([], [])
  {
  }

  // ----- models out of the environment -------------------------------------

  const ENV_MODEL_KEYS: seq<string> := [
    "ANTHROPIC_MODEL", "ANTHROPIC_DEFAULT_SONNET_MODEL", "ANTHROPIC_DEFAULT_OPUS_MODEL",
    "ANTHROPIC_DEFAULT_HAIKU_MODEL", "ANTHROPIC_DEFAULT_FABLE_MODEL", "CLAUDE_CODE_SUBAGENT_MODEL"]

  predicate HasSuffix(s: string, suffix: string) { |suffix| <= |s| && s[|s| - |suffix|..] == suffix }

  predicate ExtraKey(key: string) {
    HasSuffix(key, "_MODEL") && !HasSuffix(key, "_MODEL_NAME") && key !in ENV_MODEL_KEYS
  }

  /** The further model keys of an environment, in order. */
  ghost predicate SortedExtra(env: Env, keys: seq<string>) {
    && (forall key :: key in keys <==> key in env && ExtraKey(key))
    && (forall i, j :: 0 <= i < j < |keys| ==> LexLess(keys[i], keys[j]))
  }

  lemma {:induction false} LeastExists(keys: set<string>) returns (least: string)
    requires keys != {}
    ensures least in keys && forall k :: k in keys && k != least ==> LexLess(least, k)
    decreases keys
  {
    var x :| x in keys;
    if keys == {x} {
      least := x;
    } else {
      var rest := keys - {x};
      assert keys == {x} + rest;
      var y := LeastExists(rest);
      LexTrichotomy(x, y);
      least := if LexLess(x, y) then x else y;
      forall k | k in keys && k != least ensures LexLess(least, k) {
        if least == x && k != y { LexTransitive(x, y, k); }
      }
    }
  }

  method ExtraKeys(env: Env) returns (keys: seq<string>)
    ensures SortedExtra(env, keys)
  {
    hide ExtraKey;
    var rest := set key | key in env && ExtraKey(key);
    keys := [];
    while rest != {}
      invariant forall key :: key in rest ==> key in env && ExtraKey(key)
      invariant forall key :: key in env && ExtraKey(key) <==> key in keys || key in rest
      invariant forall i, j :: 0 <= i < j < |keys| ==> LexLess(keys[i], keys[j])
      invariant forall i, key :: 0 <= i < |keys| && key in rest ==> LexLess(keys[i], key)
      decreases rest
    {
      ghost var least := LeastExists(rest);
      var key :| key in rest && forall k :: k in rest && k != key ==> LexLess(key, k);
      keys := keys + [key];
      rest := rest - {key};
    }
  }

  datatype Slot = Slot(id: string, name: Option<string>)

  function Stem(key: string): string { if HasSuffix(key, "_MODEL") then key[..|key| - 6] else key }

  /** `push_env_slot` */
  function SlotOf(env: Env, key: string): Option<Slot> {
    var id := IdOf(Get(env, key));
    if id.Some? then Some(Slot(id.value, NonEmpty(Get(env, Stem(key) + "_MODEL_NAME")))) else None
  }

  function Slots(env: Env, keys: seq<string>): seq<Slot> {
    if keys == [] then []
    else
      var slot := SlotOf(env, keys[|keys| - 1]);
      Slots(env, keys[..|keys| - 1]) + if slot.Some? then [slot.value] else []
  }

  function SlotIds(slots: seq<Slot>): (ids: seq<Option<string>>)
    ensures |ids| == |slots| && forall i :: 0 <= i < |slots| ==> ids[i] == Some(slots[i].id)
  {
    seq(|slots|, i requires 0 <= i < |slots| => Some(slots[i].id))
  }

  /** The display names given to an id, in order. */
  function NamesFor(slots: seq<Slot>, id: string): seq<string> {
    if slots == [] then []
    else
      var last := slots[|slots| - 1];
      NamesFor(slots[..|slots| - 1], id) + if last.id == id && last.name.Some? then [last.name.value] else []
  }

  /** `choose_display_name` */
  function Display(id: string, names: seq<string>): string {
    if id in names then id else if names == [] then id else names[0]
  }

  ghost predicate Grouped(slots: seq<Slot>, names: map<string, seq<string>>) {
    forall id :: NamesFor(slots, id) == if id in names then names[id] else []
  }

  /** One pass over the slots: the ids in order and the names of each. */
  method GroupSlots(slots: seq<Slot>) returns (order: seq<string>, names: map<string, seq<string>>)
    ensures FirstOccurrences(SlotIds(slots), order) && Grouped(slots, names)
  {
    hide FirstOccurrences;
    order, names := [], map[];
    NoOccurrences();
    assert SlotIds(slots[..0]) == [];
    for k := 0 to |slots|
      invariant FirstOccurrences(SlotIds(slots[..k]), order)
      invariant Grouped(slots[..k], names)
    {
      var slot := slots[k];
      assert SlotIds(slots[..k + 1]) == SlotIds(slots[..k]) + [Some(slot.id)];
      assert slots[..k + 1][..k] == slots[..k];
      if slot.id in order {
        OccurrencesSkip(SlotIds(slots[..k]), Some(slot.id), order);
      } else {
        OccurrencesAdd(SlotIds(slots[..k]), slot.id, order);
        order := order + [slot.id];
      }
      if slot.name.Some? {
        var given := if slot.id in names then names[slot.id] else [];
        names := names[slot.id := given + [slot.name.value]];
      }
    }
    assert slots[..|slots|] == slots;
  }

  /** The models of an environment whose further keys are `extra`: one per id in the order of first
      mention, under the name equal to its id or else the first name given. */
  ghost predicate EnvModels(env: Env, extra: seq<string>, models: seq<Model>) {
    var slots := Slots(env, ENV_MODEL_KEYS + extra);
    && SortedExtra(env, extra) && FirstOccurrences(SlotIds(slots), Ids(models))
    && forall m :: m in models ==> m == Model(m.id, Display(m.id, NamesFor(slots, m.id)), None, None)
  }

  /** `models_from_env`: the six known keys, then the others in order. `extra` are those others. */
  method ModelsFromEnv(env: Env) returns (models: seq<Model>, extra: seq<string>)
    ensures EnvModels(env, extra, models)
  {
    hide FirstOccurrences, SortedExtra, SlotOf;
    extra := ExtraKeys(env);
    var keys := ENV_MODEL_KEYS + extra;
    var slots: seq<Slot> := [];
    for k := 0 to |keys|
      invariant slots == Slots(env, keys[..k])
    {
      assert keys[..k + 1][..k] == keys[..k];
      var slot := SlotOf(env, keys[k]);
      if slot.Some? {
        slots := slots + [slot.value];
      }
    }
    assert keys[..|keys|] == keys;
    var order, names := GroupSlots(slots);
    models := seq(|order|, i requires 0 <= i < |order| =>
      Model(order[i], Display(order[i], if order[i] in names then names[order[i]] else []), None, None));
    assert Ids(models) == order;
  }

  // ----- providers ----------------------------------------------------------

  const TOKEN_KEYS: seq<string> := ["ANTHROPIC_AUTH_TOKEN", "ANTHROPIC_API_KEY", "ANTHROPIC_API_TOKEN"]
  const BASE_KEYS: seq<string> := ["ANTHROPIC_BASE_URL", "ANTHROPIC_BASE_URI"]

  function ApiKey(env: Env): Option<string> { FirstNonEmpty(env, TOKEN_KEYS) }

  function BaseUrl(env: Env, proxy: Option<string>): Option<string> {
    if proxy.Some? then proxy else FirstNonEmpty(env, BASE_KEYS)
  }

  /** The id `ANTHROPIC_MODEL` asks for. */
  function Wanted(env: Env): Option<string> {
    var raw := FirstNonEmpty(env, ["ANTHROPIC_MODEL"]);
    if raw.Some? then Some(ModelId(raw.value)) else None
  }

  /** An imported provider in order: it carries the credentials throughout, its
      models are distinct, and its default is the wanted model if listed, else the first. */
  predicate Usable(i: Import, env: Env, proxy: Option<string>) {
    && i.provider.apiKey == ApiKey(env) && i.provider.apiKey.Some?
    && i.provider.baseUrl == BaseUrl(env, proxy) && i.provider.baseUrl.Some?
    && i.provider.models != [] && DistinctTexts(Ids(i.provider.models))
    && (forall k :: 0 <= k < |i.provider.models| ==>
          i.provider.models[k].apiKey == ApiKey(env) && i.provider.models[k].baseUrl == BaseUrl(env, proxy))
    && i.defaultModelId in Ids(i.provider.models)
    && i.defaultModelId == DefaultOf(i.provider.models, Wanted(env))
  }

  function DefaultOf(models: seq<Model>, wanted: Option<string>): string
    requires models != []
  {
    if wanted.Some? && wanted.value in Ids(models) then wanted.value else models[0].id
  }

  /** A model under its provider's credentials and picker name. */
  function Dressed(m: Model, apiKey: string, baseUrl: string, prefix: Option<string>): Model {
    Model(m.id, (if prefix.Some? then prefix.value + " \U{00B7} " else "") + m.name, Some(apiKey), Some(baseUrl))
  }

  /** The loop that gives every model its credentials and its picker name. */
  method Dress(models0: seq<Model>, apiKey: string, baseUrl: string, prefix: Option<string>) returns (models: seq<Model>)
    ensures |models| == |models0| && Ids(models) == Ids(models0)
    ensures forall k :: 0 <= k < |models| ==> models[k] == Dressed(models0[k], apiKey, baseUrl, prefix)
  {
    models := models0;
    for k := 0 to |models0|
      invariant |models| == |models0| && Ids(models) == Ids(models0)
      invariant forall j :: k <= j < |models| ==> models[j] == models0[j]
      invariant forall j :: 0 <= j < k ==> models[j] == Dressed(models0[j], apiKey, baseUrl, prefix)
    {
      var m := models[k];
      var name := if prefix.Some? then prefix.value + " \U{00B7} " + m.name else m.name;
      var next := models[k := Model(m.id, name, Some(apiKey), Some(baseUrl))];
      assert Ids(next) == Ids(models);
      models := next;
    }
  }

  /** The catalog array names a model. */
  predicate ArrayOffers(settings: Settings) {
    settings.models.Some? && exists i :: 0 <= i < |settings.models.value| && ItemId(settings.models.value[i]).Some?
  }

  /** A model variable of the environment does. */
  predicate EnvOffers(env: Env) {
    exists key :: key in env && (key in ENV_MODEL_KEYS || ExtraKey(key)) && IdOf(Get(env, key)).Some?
  }

  /** The models settings offer: those of the catalog array, or those of the environment when it names none. */
  ghost predicate Offered(settings: Settings, env: Env, models: seq<Model>) {
    if ArrayOffers(settings) then
      && FirstOccurrences(ItemIds(settings.models.value), Ids(models))
      && forall m :: m in models ==> NamedByFirst(settings.models.value, m)
    else exists extra :: EnvModels(env, extra, models)
  }

  lemma NoneOffered(offered: seq<Option<string>>, ids: seq<string>)
    requires FirstOccurrences(offered, ids)
    ensures ids == [] <==> forall i :: 0 <= i < |offered| ==> offered[i].None?
  {
    if ids != [] { assert ids[0] in ids; }
    forall i | 0 <= i < |offered| && offered[i].Some? ensures offered[i].value in ids { assert offered[i] in offered; }
  }

  lemma {:induction false} NoSlots(env: Env, keys: seq<string>)
    ensures Slots(env, keys) == [] <==> forall i :: 0 <= i < |keys| ==> IdOf(Get(env, keys[i])).None?
  {
    hide IdOf;
    if keys != [] {
      var n := |keys| - 1;
      NoSlots(env, keys[..n]);
      assert keys == keys[..n] + [keys[n]];
    }
  }

  lemma NoneInEnv(env: Env, extra: seq<string>, models: seq<Model>)
    requires EnvModels(env, extra, models)
    ensures models == [] <==> !EnvOffers(env)
  {
    var keys := ENV_MODEL_KEYS + extra;
    var slots := Slots(env, keys);
    NoneOffered(SlotIds(slots), Ids(models));
    NoSlots(env, keys);
    hide IdOf, ExtraKey, Slots, FirstOccurrences;
    assert slots != [] ==> SlotIds(slots)[0].Some?;
    if EnvOffers(env) {
      var key :| key in env && (key in ENV_MODEL_KEYS || ExtraKey(key)) && IdOf(Get(env, key)).Some?;
      assert key in keys;
    }
    if slots != [] {
      var i :| 0 <= i < |keys| && IdOf(Get(env, keys[i])).Some?;
      assert keys[i] in env by { NoId(); }
      assert keys[i] in ENV_MODEL_KEYS || keys[i] in extra;
    }
  }

  lemma NoId()
    ensures IdOf(None) == None
  {
  }

  /** The catalog array, or the environment when it lists nothing. */
  method ModelsOf(settings: Settings, env: Env) returns (models: seq<Model>)
    ensures Offered(settings, env, models) && DistinctTexts(Ids(models))
    ensures models == [] <==> !ArrayOffers(settings) && !EnvOffers(env)
  {
    hide EnvModels, ItemId, EnvOffers, NamedByFirst;
    models := [];
    if settings.models.Some? {
      models := ModelsFromCatalogArray(settings.models.value);
      NoneOffered(ItemIds(settings.models.value), Ids(models));
    }
    if models == [] {
      var extra;
      models, extra := ModelsFromEnv(env);
      NoneInEnv(env, extra, models);
      EnvDistinct(env, extra, models);
    }
  }

  lemma EnvDistinct(env: Env, extra: seq<string>, models: seq<Model>)
    requires EnvModels(env, extra, models)
    ensures DistinctTexts(Ids(models))
  {
  }

  /** The settings can be imported. */
  predicate Importable(settings: Settings, proxy: Option<string>) {
    && settings.env.Some? && ApiKey(settings.env.value).Some? && BaseUrl(settings.env.value, proxy).Some?
    && (ArrayOffers(settings) || EnvOffers(settings.env.value))
  }

  /** The models of an import are those offered, dressed in this order. */
  ghost predicate ModelsFrom(settings: Settings, proxy: Option<string>, prefix: Option<string>, models: seq<Model>)
    requires Importable(settings, proxy)
  {
    exists plain: seq<Model> :: Offered(settings, settings.env.value, plain) && |plain| == |models|
      && forall k :: 0 <= k < |models| ==>
           models[k] == Dressed(plain[k], ApiKey(settings.env.value).value, BaseUrl(settings.env.value, proxy).value, prefix)
  }

  /** The import of a profile under a name and a picker prefix. */
  ghost predicate ImportOf(i: Import, title: string, settings: Settings, proxy: Option<string>, name: string,
                           prefix: Option<string>) {
    && Importable(settings, proxy) && Usable(i, settings.env.value, proxy)
    && ModelsFrom(settings, proxy, prefix, i.provider.models)
    && i.provider.name == name && i.title == title && i.viaProxy == proxy.Some?
  }

  /** `provider_from_settings_as` */
  method ProviderFromSettings(title: string, settings: Settings, proxy: Option<string>, name: string,
                              prefix: Option<string>)
    returns (r: Result)
    ensures r.Imported? <==> Importable(settings, proxy)
    ensures r.Imported? ==> ImportOf(r.value, title, settings, proxy, name, prefix)
    ensures r == Failed(NoEnv) <==> settings.env.None?
    ensures settings.env.Some? ==> (r == Failed(NoToken) <==> ApiKey(settings.env.value).None?)
    ensures settings.env.Some? && ApiKey(settings.env.value).Some? ==>
              (r == Failed(NoBaseUrl) <==> BaseUrl(settings.env.value, proxy).None?)
    ensures settings.env.Some? && ApiKey(settings.env.value).Some? && BaseUrl(settings.env.value, proxy).Some? ==>
              (r == Failed(NoModels) <==> !ArrayOffers(settings) && !EnvOffers(settings.env.value))
  {
    hide ApiKey, BaseUrl, Wanted, DistinctTexts, Offered, ArrayOffers, EnvOffers;
    if settings.env.None? {
      return Failed(NoEnv);
    }
    var env := settings.env.value;
    var apiKey := ApiKey(env);
    if apiKey.None? {
      return Failed(NoToken);
    }
    var baseUrl := BaseUrl(env, proxy);
    if baseUrl.None? {
      return Failed(NoBaseUrl);
    }
    var models := ModelsOf(settings, env);
    if models == [] {
      return Failed(NoModels);
    }
    var dressed := Dress(models, apiKey.value, baseUrl.value, prefix);
    var default := DefaultOf(dressed, Wanted(env));
    assert dressed[0].id == Ids(dressed)[0];
    return Imported(Import(Provider(name, apiKey, baseUrl, dressed), default, title, proxy.Some?));
  }

  // ----- the catalog --------------------------------------------------------

  datatype Profile = Profile(title: string, settings: Settings, isCurrent: bool)

  datatype Catalog = Catalog(imports: seq<Import>, default: Option<string>)

  predicate IsImported(name: string) { name == PROVIDER_NAME || PREFIX <= name }

  predicate DistinctNames(imports: seq<Import>) {
    forall i, j :: 0 <= i < j < |imports| ==> imports[i].provider.name != imports[j].provider.name
  }

  /** Some import named plainly lists the default. */
  predicate DefaultListed(imports: seq<Import>, default: string) {
    exists i :: 0 <= i < |imports| && imports[i].provider.name == PROVIDER_NAME
                && imports[i].defaultModelId in Ids(imports[i].provider.models)
                && default == PROVIDER_NAME + "/" + imports[i].defaultModelId
  }

  predicate CatalogOk(c: Catalog) {
    && DistinctNames(c.imports)
    && (forall i :: 0 <= i < |c.imports| ==>
          && IsImported(c.imports[i].provider.name) && c.imports[i].provider.models != []
          && (c.imports[i].viaProxy ==> c.imports[i].provider.name == PROVIDER_NAME)
          && c.imports[i].defaultModelId in Ids(c.imports[i].provider.models))
    && (c.default.Some? <==> exists i :: 0 <= i < |c.imports| && c.imports[i].provider.name == PROVIDER_NAME)
    && (c.default.Some? ==> DefaultListed(c.imports, c.default.value))
  }

  lemma CandidateIsImported(slug: string, n: nat)
    ensures IsImported(Candidate(slug, n)) && Candidate(slug, n) != PROVIDER_NAME
  {
  }

  /** The profile that counts as current: the first marked so. */
  predicate Current(rows: seq<Profile>, k: nat)
    requires k < |rows|
  {
    rows[k].isCurrent && forall j :: 0 <= j < k ==> !rows[j].isCurrent
  }

  predicate AnyCurrent(rows: seq<Profile>, n: nat)
    requires n <= |rows|
  {
    exists j :: 0 <= j < n && rows[j].isCurrent
  }

  lemma CurrentIsFirst(rows: seq<Profile>, k: nat)
    requires k < |rows|
    ensures Current(rows, k) <==> rows[k].isCurrent && !AnyCurrent(rows, k)
    ensures AnyCurrent(rows, k + 1) <==> AnyCurrent(rows, k) || rows[k].isCurrent
  {
  }

  /** The proxy fronts the current profile alone; the others show their title. */
  function ProxyFor(rows: seq<Profile>, k: nat, proxy: Option<string>): Option<string>
    requires k < |rows|
  {
    if Current(rows, k) then proxy else None
  }

  function PrefixFor(rows: seq<Profile>, k: nat): Option<string>
    requires k < |rows|
  {
    if Current(rows, k) then None else Some(rows[k].title)
  }

  /** The names the profiles are given: the plain one to the current profile, to every other
      the first candidate of its slug not given before. */
  ghost predicate NamesGiven(rows: seq<Profile>, names: seq<string>) {
    |names| <= |rows| && forall k :: 0 <= k < |names| ==> NameGiven(rows, names, k)
  }

  ghost predicate NameGiven(rows: seq<Profile>, names: seq<string>, k: nat)
    requires k < |names| <= |rows|
  {
    if Current(rows, k) then names[k] == PROVIDER_NAME
    else exists n: nat :: FirstFree(Slug(rows[k].title), Given(names[..k]), n, names[k])
  }

  function Given(names: seq<string>): set<string> { {PROVIDER_NAME} + set name | name in names }

  /** The imports are, in row order, those of the profiles at `at`: exactly the importable ones
      among the first `n`. */
  ghost predicate RowsImported(rows: seq<Profile>, proxy: Option<string>, names: seq<string>, n: nat,
                               imports: seq<Import>, at: seq<nat>)
    requires n <= |rows| && n <= |names|
  {
    && |at| == |imports| && (forall i, j :: 0 <= i < j < |at| ==> at[i] < at[j])
    && (forall i :: 0 <= i < |at| ==> at[i] < n)
    && (forall k :: 0 <= k < n ==> (k in at <==> Importable(rows[k].settings, ProxyFor(rows, k, proxy))))
    && (forall i :: 0 <= i < |at| ==> RowImported(rows, proxy, names, imports[i], at[i]))
  }

  ghost predicate RowImported(rows: seq<Profile>, proxy: Option<string>, names: seq<string>, i: Import, k: nat) {
    && k < |rows| && k < |names|
    && ImportOf(i, rows[k].title, rows[k].settings, ProxyFor(rows, k, proxy), names[k], PrefixFor(rows, k))
  }

  lemma ImportsNext(rows: seq<Profile>, proxy: Option<string>, names: seq<string>, name: string, imports: seq<Import>,
                    at: seq<nat>, r: Result)
    requires |names| < |rows| && RowsImported(rows, proxy, names, |names|, imports, at)
    requires r.Imported? <==> Importable(rows[|names|].settings, ProxyFor(rows, |names|, proxy))
    requires r.Imported? ==> RowImported(rows, proxy, names + [name], r.value, |names|)
    ensures if r.Imported? then RowsImported(rows, proxy, names + [name], |names| + 1, imports + [r.value], at + [|names|])
            else RowsImported(rows, proxy, names + [name], |names| + 1, imports, at)
  {
    hide Importable, ProxyFor, ImportOf, PrefixFor;
    var n := |names|;
    var names' := names + [name];
    var imports', at' := if r.Imported? then imports + [r.value] else imports, if r.Imported? then at + [n] else at;
    forall i | 0 <= i < |at'| ensures RowImported(rows, proxy, names', imports'[i], at'[i]) {
      if i < |at| {
        assert RowImported(rows, proxy, names, imports[i], at[i]);
        assert names'[at[i]] == names[at[i]];
      }
    }
    forall k | 0 <= k < n + 1 ensures k in at' <==> Importable(rows[k].settings, ProxyFor(rows, k, proxy)) {
      if k == n { assert n !in at; }
    }
  }

  lemma NamesNext(rows: seq<Profile>, names: seq<string>, name: string, n: nat)
    requires NamesGiven(rows, names) && |names| < |rows|
    requires if Current(rows, |names|) then name == PROVIDER_NAME
             else FirstFree(Slug(rows[|names|].title), Given(names), n, name)
    ensures NamesGiven(rows, names + [name]) && Given(names + [name]) == Given(names) + {name}
  {
    hide Current, Given, FirstFree, Slug;
    var more := names + [name];
    forall k | 0 <= k < |more| ensures NameGiven(rows, more, k) {
      assert more[..k] == names[..k];
      if k < |names| {
        assert NameGiven(rows, names, k) && more[k] == names[k];
      } else {
        assert names[..k] == names && more[k] == name;
      }
    }
    GivenNext(names, name);
  }

  lemma GivenNext(names: seq<string>, name: string)
    ensures Given(names + [name]) == Given(names) + {name}
  {
  }

  /** `catalog_from_rows`: the importable profiles in row order, under distinct names, the plain one
      for the current profile alone, and a default that names one of its models. */
  method CatalogFromRows(rows: seq<Profile>, proxy: Option<string>)
    returns (catalog: Catalog, ghost names: seq<string>, ghost at: seq<nat>)
    ensures CatalogOk(catalog) && |names| == |rows| && NamesGiven(rows, names)
    ensures RowsImported(rows, proxy, names, |rows|, catalog.imports, at)
  {
    hide CatalogOk, RowsImported, NamesGiven, Importable, ImportOf, Given, FirstFree, IsImported, ApiKey, BaseUrl,
         ArrayOffers, EnvOffers, CatalogNamesUsed, Slug, Current, AnyCurrent;
    var used := {PROVIDER_NAME};
    var sawCurrent := false;
    catalog, names, at := Catalog([], None), [], [];
    CatalogStart(rows, proxy);
    for k := 0 to |rows|
      invariant |names| == k && NamesGiven(rows, names) && used == Given(names)
      invariant CatalogOk(catalog) && RowsImported(rows, proxy, names, k, catalog.imports, at)
      invariant CatalogNamesUsed(catalog, used) && PROVIDER_NAME in used
      invariant sawCurrent <==> AnyCurrent(rows, k)
      invariant !sawCurrent ==> catalog.default.None?
    {
      var row := rows[k];
      var name: string, prefix: Option<string>, url: Option<string>;
      var current := row.isCurrent && !sawCurrent;
      CurrentIsFirst(rows, k);
      ghost var before := used;
      var suffix := 1;
      if current {
        sawCurrent := true;
        name, prefix, url := PROVIDER_NAME, None, proxy;
      } else {
        var slug := ProviderSlug(row.title);
        name, used, suffix := UniqueProviderName(slug, used);
        FreeIsImported(slug, before, suffix - 1, name);
        prefix, url := Some(row.title), None;
      }
      var r := ProviderFromSettings(row.title, row.settings, url, name, prefix);
      NamesNext(rows, names, name, suffix - 1);
      NamesStillUsed(catalog, before, used);
      ImportsNext(rows, proxy, names, name, catalog.imports, at, r);
      names := names + [name];
      if r.Imported? {
        at := at + [k];
        ImportFacts(r.value, row.title, row.settings, url, name, prefix);
        CatalogAdd(catalog, r.value, before, used, current);
        catalog := Catalog(catalog.imports + [r.value],
                           if current then Some(PROVIDER_NAME + "/" + r.value.defaultModelId) else catalog.default);
      }
    }
  }

  lemma FreeIsImported(slug: string, used: set<string>, n: nat, name: string)
    requires FirstFree(slug, used, n, name)
    ensures IsImported(name) && name !in used
  {
    CandidateIsImported(slug, n);
  }

  lemma ImportFacts(i: Import, title: string, settings: Settings, proxy: Option<string>, name: string,
                    prefix: Option<string>)
    requires ImportOf(i, title, settings, proxy, name, prefix)
    ensures i.provider.name == name && i.viaProxy == proxy.Some?
    ensures i.provider.models != [] && i.defaultModelId in Ids(i.provider.models)
  {
    hide Importable, ModelsFrom;
  }

  predicate CatalogNamesUsed(c: Catalog, used: set<string>) {
    forall i :: 0 <= i < |c.imports| ==> c.imports[i].provider.name in used
  }

  lemma NamesStillUsed(c: Catalog, used: set<string>, used': set<string>)
    requires CatalogNamesUsed(c, used) && used <= used'
    ensures CatalogNamesUsed(c, used')
  {
  }

  lemma CatalogStart(rows: seq<Profile>, proxy: Option<string>)
    ensures CatalogOk(Catalog([], None)) && NamesGiven(rows, []) && Given([]) == {PROVIDER_NAME}
    ensures RowsImported(rows, proxy, [], 0, [], []) && CatalogNamesUsed(Catalog([], None), {PROVIDER_NAME})
    ensures !AnyCurrent(rows, 0)
  {
  }

  lemma CatalogAdd(c: Catalog, i: Import, used: set<string>, used': set<string>, current: bool)
    requires used' == used + {i.provider.name} || (current && used' == used)
    requires CatalogOk(c) && CatalogNamesUsed(c, used) && PROVIDER_NAME in used
    requires i.provider.models != [] && i.defaultModelId in Ids(i.provider.models)
    requires if current then c.default.None? && i.provider.name == PROVIDER_NAME
             else i.provider.name !in used && IsImported(i.provider.name) && !i.viaProxy
    ensures var more := Catalog(c.imports + [i], if current then Some(PROVIDER_NAME + "/" + i.defaultModelId) else c.default);
            CatalogOk(more) && CatalogNamesUsed(more, used')
  {
    var more := c.imports + [i];
    assert more[|c.imports|] == i;
    if c.default.Some? {
      var k :| 0 <= k < |c.imports| && c.imports[k].provider.name == PROVIDER_NAME
               && c.imports[k].defaultModelId in Ids(c.imports[k].provider.models)
               && c.default.value == PROVIDER_NAME + "/" + c.imports[k].defaultModelId;
      assert more[k] == c.imports[k];
    }
  }

  // ----- the merge ----------------------------------------------------------

  function Retained(providers: seq<Provider>): seq<Provider> {
    if providers == [] then []
    else (if IsImported(providers[0].name) then [] else [providers[0]]) + Retained(providers[1..])
  }

  function Providers(imports: seq<Import>): (ps: seq<Provider>)
    ensures |ps| == |imports| && forall i :: 0 <= i < |imports| ==> ps[i] == imports[i].provider
  {
    seq(|imports|, i requires 0 <= i < |imports| => imports[i].provider)
  }

  function MergedDefault(default: Option<string>, catalog: Catalog, prefer: bool): Option<string> {
    if (prefer || default.None? || Trim(default.value) == "") && catalog.default.Some? then catalog.default else default
  }

  class Config {
    var providers: seq<Provider>
    var defaultModel: Option<string>

    /** `merge_into_config` */
    method MergeIntoConfig(disabled: bool, catalog: Option<Catalog>, prefer: bool) returns (merged: bool)
      modifies this
      ensures merged <==> !disabled && catalog.Some?
      ensures !merged ==> providers == old(providers) && defaultModel == old(defaultModel)
      ensures merged ==> providers == Retained(old(providers)) + Providers(catalog.value.imports)
      ensures merged ==> defaultModel == MergedDefault(old(defaultModel), catalog.value, prefer)
    {
      if disabled || catalog.None? {
        return false;
      }
      providers := Retained(providers);
      var needsDefault := defaultModel.None? || Trim(defaultModel.value) == "";
      if prefer || needsDefault {
        if catalog.value.default.Some? {
          defaultModel := catalog.value.default;
        }
      }
      providers := providers + Providers(catalog.value.imports);
      return true;
    }
  }

  lemma {:induction false} RetainedConcat(a: seq<Provider>, b: seq<Provider>)
    ensures Retained(a + b) == Retained(a) + Retained(b)
  {
    hide Retained;
    RetainedFirst(a);
    RetainedFirst(a + b);
    if a == [] {
      assert a + b == b;
    } else {
      assert (a + b)[0] == a[0] && (a + b)[1..] == a[1..] + b;
      RetainedConcat(a[1..], b);
      var head := if IsImported(a[0].name) then [] else [a[0]];
      assert head + (Retained(a[1..]) + Retained(b)) == head + Retained(a[1..]) + Retained(b);
    }
  }

  lemma RetainedFirst(a: seq<Provider>)
    ensures Retained(a) == if a == [] then []
                           else (if IsImported(a[0].name) then [] else [a[0]]) + Retained(a[1..])
  {
  }

  lemma {:induction false} RetainedTwice(a: seq<Provider>)
    ensures Retained(Retained(a)) == Retained(a)
  {
    hide IsImported;
    if a != [] {
      RetainedTwice(a[1..]);
      if IsImported(a[0].name) {
        assert Retained(a) == Retained(a[1..]);
      } else {
        assert Retained(a)[1..] == Retained(a[1..]);
      }
    }
  }

  lemma {:induction false} ImportsDropped(ps: seq<Provider>)
    requires forall i :: 0 <= i < |ps| ==> IsImported(ps[i].name)
    ensures Retained(ps) == []
  {
    if ps != [] { ImportsDropped(ps[1..]); }
  }

  /** Merging the same catalog again changes nothing, and the other providers stay as they were. */
  lemma MergeTwice(providers: seq<Provider>, default: Option<string>, catalog: Catalog, prefer: bool)
    requires CatalogOk(catalog)
    ensures var once := Retained(providers) + Providers(catalog.imports);
            && Retained(once) + Providers(catalog.imports) == once && Retained(once) == Retained(providers)
    ensures var once := MergedDefault(default, catalog, prefer);
            MergedDefault(once, catalog, prefer) == once
  {
    hide Trim;
    var ps := Providers(catalog.imports);
    RetainedConcat(Retained(providers), ps);
    RetainedTwice(providers);
    ImportsDropped(ps);
  }
}
