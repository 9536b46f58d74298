/** The settings store (src/state/settingsStore.ts): the player's display and
    opponent preferences, updated by partial records and persisted on every
    change. The browser storage key is modelled by the `saved` field:
    `None` until the store first writes it. */
module SettingsStore {
  import opened Types

  /** Theme dark, language French, normal animations, random opponent. */
  const DefaultSettings: Settings := Settings(Dark, Fr, Normal, Random)

  /** A partial settings record: each field may be absent. */
  datatype PartialSettings = PartialSettings(
    theme: Option<Theme>,
    language: Option<Language>,
    animationSpeed: Option<AnimationSpeed>,
    aiType: Option<AIType>)

  const NoChange: PartialSettings := PartialSettings(None, None, None, None)

  datatype State = State(settings: Settings, saved: Option<Settings>)

  /** The store as created: it starts from the stored settings, or the
      defaults when nothing is stored, and writes nothing. */
  function Init(stored: Option<Settings>): (s: State)
    ensures stored.Some? ==> s.settings == stored.value
    ensures stored.None? ==> s.settings == DefaultSettings
    ensures s.saved == stored
  {
    State(LoadSettings(stored), stored)
  }

  /** What the store starts from: the stored settings, or the defaults. */
  function LoadSettings(stored: Option<Settings>): (r: Settings)
    ensures stored.Some? ==> r == stored.value
    ensures stored.None? ==> r == DefaultSettings
  {
    match stored
    case Some(st) => st
    case None => DefaultSettings
  }

  function Pick<T>(update: Option<T>, current: T): (r: T)
    ensures update.Some? ==> r == update.value
    ensures update.None? ==> r == current
  {
    match update
    case Some(v) => v
    case None => current
  }

  /** `{ ...current, ...update }`: every field the update supplies wins,
      every other field keeps its current value. */
  function Merge(current: Settings, update: PartialSettings): (r: Settings)
    ensures update.theme.Some? ==> r.theme == update.theme.value
    ensures update.theme.None? ==> r.theme == current.theme
    ensures update.language.Some? ==> r.language == update.language.value
    ensures update.language.None? ==> r.language == current.language
    ensures update.animationSpeed.Some? ==> r.animationSpeed == update.animationSpeed.value
    ensures update.animationSpeed.None? ==> r.animationSpeed == current.animationSpeed
    ensures update.aiType.Some? ==> r.aiType == update.aiType.value
    ensures update.aiType.None? ==> r.aiType == current.aiType
  {
    Settings(
      Pick(update.theme, current.theme),
      Pick(update.language, current.language),
      Pick(update.animationSpeed, current.animationSpeed),
      Pick(update.aiType, current.aiType))
  }

  /** `updateSettings`: merge and persist the merged settings. */
  function UpdateSettings(s: State, update: PartialSettings): (r: State)
    ensures r.settings == Merge(s.settings, update)
    ensures r.saved == Some(r.settings)
  {
    var merged := Merge(s.settings, update);
    State(merged, Some(merged))
  }

  /** `resetSettings`: the defaults, in memory and in storage. */
  function ResetSettings(s: State): (r: State)
    ensures r.settings == DefaultSettings && r.saved == Some(DefaultSettings)
  {
    State(DefaultSettings, Some(DefaultSettings))
  }

  /** The partial record that supplies every field of `st`. */
  function Full(st: Settings): PartialSettings
  {
    PartialSettings(Some(st.theme), Some(st.language), Some(st.animationSpeed), Some(st.aiType))
  }

  /** The update that supplies what `second` supplies, and `first`'s fields
      elsewhere. */
  function Then(first: PartialSettings, second: PartialSettings): PartialSettings
  {
    PartialSettings(
      if second.theme.Some? then second.theme else first.theme,
      if second.language.Some? then second.language else first.language,
      if second.animationSpeed.Some? then second.animationSpeed else first.animationSpeed,
      if second.aiType.Some? then second.aiType else first.aiType)
  }

  /** An empty update changes nothing (but still persists). */
  lemma EmptyUpdateKeepsSettings(s: State)
    ensures UpdateSettings(s, NoChange).settings == s.settings
    ensures UpdateSettings(s, NoChange).saved == Some(s.settings)
  {
  }

  /** An update that supplies every field replaces the settings outright. */
  lemma FullUpdateReplaces(s: State, st: Settings)
    ensures UpdateSettings(s, Full(st)).settings == st
  {
  }

  /** Applying the same update twice is applying it once. */
  lemma UpdateIdempotent(s: State, update: PartialSettings)
    ensures UpdateSettings(UpdateSettings(s, update), update) == UpdateSettings(s, update)
  {
  }

  /** Two updates in a row are one update with the later one's fields winning. */
  lemma UpdatesCompose(s: State, first: PartialSettings, second: PartialSettings)
    ensures UpdateSettings(UpdateSettings(s, first), second) == UpdateSettings(s, Then(first, second))
  {
  }

  /** Changing only the opponent keeps the display preferences. */
  lemma ChangingOpponentKeepsDisplay(s: State, t: AIType)
    ensures var r := UpdateSettings(s, NoChange.(aiType := Some(t))).settings;
      r.aiType == t && r.theme == s.settings.theme && r.language == s.settings.language
      && r.animationSpeed == s.settings.animationSpeed
  {
  }

  /** Reading storage back gives what the store holds: a store created now
      would start from the same settings. */
  predicate Invariant(s: State)
  {
    LoadSettings(s.saved) == s.settings
  }

  lemma InitInvariant(stored: Option<Settings>)
    ensures Invariant(Init(stored))
  {
  }

  lemma UpdateSettingsInvariant(s: State, update: PartialSettings)
    ensures Invariant(UpdateSettings(s, update))
  {
  }

  lemma ResetSettingsInvariant(s: State)
    ensures Invariant(ResetSettings(s))
  {
  }

  /** Whatever was updated, a reset holds what a store created with nothing
      stored holds; storage then holds the defaults rather than nothing, and
      a store created from it is the reset store itself. */
  lemma ResetAfterUpdateIsDefault(s: State, update: PartialSettings)
    ensures var r := ResetSettings(UpdateSettings(s, update));
      && r.settings == Init(None).settings
      && r.saved == Some(DefaultSettings) && Init(None).saved == None
      && Init(r.saved) == r
  {
  }
}
