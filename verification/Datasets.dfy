/** The shipped dataset table, its shape, and policies resolved from it. */
module Datasets {
  import opened Wrappers
  import opened Paths
  import opened Rules
  import opened Catalog
  import opened Profiles
  import opened Policy
  import opened WireRules

  const SETTINGS_DATASETS: seq<Definition> := [
    Public("settings.core", [],
           [["default-user", "settings.json"], ["default-user", "tauritavern-settings.json"],
            ["default-user", "image-metadata.json"]]),
    Public("settings.appearance", [],
           [["default-user", "settings", "appearance.json"], ["default-user", "settings", "dynamic-theme.json"]]),
    Public("settings.presets", [], [["default-user", "settings", "presets.json"]]),
    Public("settings.layout", [], [["default-user", "settings", "layout.json"]]),
    Public("secrets.api_keys", [], [["default-user", "secrets.json"]])
  ]

  const CONTENT_DATASETS: seq<Definition> := [
    Public("chat.character.history", [["default-user", "chats"]], []),
    Public("chat.group.metadata", [["default-user", "groups"]], []),
    Public("chat.group.history", [["default-user", "group chats"]], []),
    Public("character.cards", [["default-user", "characters"]], []),
    Public("character.avatars", [["default-user", "User Avatars"]],
           [["default-user", "settings", "persona-state.json"]]),
    Public("world.info", [["default-user", "worlds"]], []),
    Public("preset.openai", [["default-user", "OpenAI Settings"]], []),
    Public("preset.novelai", [["default-user", "NovelAI Settings"]], []),
    Public("preset.textgen", [["default-user", "TextGen Settings"]], []),
    Public("preset.kobold", [["default-user", "KoboldAI Settings"]], []),
    Public("prompt.instruct", [["default-user", "instruct"]], []),
    Public("prompt.context", [["default-user", "context"]], []),
    Public("prompt.sysprompt", [["default-user", "sysprompt"]], []),
    Public("prompt.reasoning", [["default-user", "reasoning"]], [])
  ]

  const MEDIA_DATASETS: seq<Definition> := [
    Public("quick.replies", [["default-user", "QuickReplies"]], []),
    Public("ui.themes", [["default-user", "themes"]], []),
    Public("ui.moving", [["default-user", "movingUI"]], []),
    Public("media.backgrounds", [["default-user", "backgrounds"]], []),
    Public("media.assets", [["default-user", "assets"]], []),
    Public("media.thumbnails", [["default-user", "thumbnails"]], []),
    Public("media.user_images", [["default-user", "user", "images"]], []),
    Public("user.files", [["default-user", "user", "files"]], []),
    Public("user.workflows", [["default-user", "user", "workflows"]], []),
    Public("vectors", [["default-user", "vectors"]], []),
    Public("backups", [["default-user", "backups"]], []),
    Public("extensions.local", [["default-user", "extensions"]], [])
  ]

  const SHARED_DATASETS: seq<Definition> := [
    Public("extensions.third_party", [["extensions", "third-party"]], []),
    Public("extensions.sources",
           [["_tauritavern", "extension-sources", "local"], ["_tauritavern", "extension-sources", "global"]], []),
    Public("extensions.store", [["_tauritavern", "extension-store"]], []),
    Definition(DATABASE_DATASET_ID, [DATABASE_ROOT], [], [Rule.Database]),
    Public("agent.profiles", [["_tauritavern", "agent-profiles", "profiles"]], []),
    Public("agent.llm_connections", [["_tauritavern", "llm-connections"]], []),
    Public("agent.skills", [["_tauritavern", "skills", "installed"], ["_tauritavern", "skills", "index"]], [])
  ]

  const AGENT_DATASETS: seq<Definition> := [
    Definition("agent.persistent_state", [CHATS], [], [WorkspaceComponent("persistent-states")]),
    Definition("agent.run_journal", [RUN_INDEX, CHATS], [],
               [Prefix(RUN_INDEX), RunFile("run.json"), RunFile("events.jsonl")]),
    Definition("agent.run_context", [CHATS], [],
               [RunFile("manifest.json"), RunComponent("input"), RunComponent("invocations")]),
    Definition("agent.run_workspace_projection", [CHATS], [],
               [RunComponent("persist"), RunComponent("summaries"), RunComponent("plan")]),
    Definition("agent.run_tool_io", [CHATS], [],
               [RunComponent("tool-args"), RunComponent("tool-results"), RunComponent("agent-results")]),
    Definition("agent.workspace_outputs", [CHATS], [], [RunComponent("output")]),
    Definition("agent.workspace_scratch", [CHATS], [], [RunComponent("scratch")]),
    Definition("agent.tasks", [CHATS], [], [RunComponent("tasks")]),
    Definition("agent.model_responses", [CHATS], [], [RunComponent("model-responses")]),
    Definition("agent.checkpoints", [CHATS], [], [RunComponent("checkpoints")])
  ]

  const DATASETS: seq<Definition> :=
    SETTINGS_DATASETS + CONTENT_DATASETS + MEDIA_DATASETS + SHARED_DATASETS + AGENT_DATASETS

  /** A public definition has its shape from its directories and files. */
  lemma PublicShape(id: string, dirs: seq<Path>, files: seq<Path>)
    requires forall i :: 0 <= i < |dirs| ==> RootShape(dirs[i]) && dirs[i][1] != DATABASE_ROOT[1]
    requires forall i :: 0 <= i < |files| ==> FileShape(files[i])
    ensures DefinitionShape(Public(id, dirs, files))
  {
  }

  lemma SettingsShape()
    ensures forall i :: 0 <= i < |SETTINGS_DATASETS| ==> DefinitionShape(SETTINGS_DATASETS[i])
  {
  }

  lemma ContentShape()
    ensures forall i :: 0 <= i < |CONTENT_DATASETS| ==> DefinitionShape(CONTENT_DATASETS[i])
  {
    forall i | 0 <= i < |CONTENT_DATASETS|
      ensures DefinitionShape(CONTENT_DATASETS[i])
    {
      var d := CONTENT_DATASETS[i];
      assert |d.scanRoots| == 1;
      assert d.scanRoots[0][1] !in FILE_HEADS;
    }
  }

  lemma MediaShape()
    ensures forall i :: 0 <= i < |MEDIA_DATASETS| ==> DefinitionShape(MEDIA_DATASETS[i])
  {
    forall i | 0 <= i < |MEDIA_DATASETS|
      ensures DefinitionShape(MEDIA_DATASETS[i])
    {
      var d := MEDIA_DATASETS[i];
      assert |d.scanRoots| == 1;
      assert d.scanRoots[0][1] !in FILE_HEADS;
    }
  }

  lemma SharedShape()
    ensures forall i :: 0 <= i < |SHARED_DATASETS| ==> DefinitionShape(SHARED_DATASETS[i])
  {
    forall i | 0 <= i < |SHARED_DATASETS|
      ensures DefinitionShape(SHARED_DATASETS[i])
    {
      var d := SHARED_DATASETS[i];
      if i != 3 {
        assert forall k :: 0 <= k < |d.scanRoots| ==>
          d.scanRoots[k][0] != "default-user" && d.scanRoots[k][1] != DATABASE_ROOT[1];
        PublicShape(d.id, d.scanRoots, []);
      }
    }
  }

  lemma AgentShape()
    ensures forall i :: 0 <= i < |AGENT_DATASETS| ==> DefinitionShape(AGENT_DATASETS[i])
  {
    assert CHATS[1] != DATABASE_ROOT[1] && RUN_INDEX[1] != DATABASE_ROOT[1];
    assert CHATS[0] != "default-user" && RUN_INDEX[0] != "default-user";
    assert RootShape(CHATS) && RootShape(RUN_INDEX);
    forall i | 0 <= i < |AGENT_DATASETS|
      ensures DefinitionShape(AGENT_DATASETS[i])
    {
      var d := AGENT_DATASETS[i];
      assert forall k :: 0 <= k < |d.scanRoots| ==> d.scanRoots[k] in [CHATS, RUN_INDEX];
      assert forall k :: 0 <= k < |d.rules| ==> d.rules[k].Root() in d.scanRoots;
    }
  }

  lemma CatalogShape()
    ensures forall d :: d in DATASETS ==> DefinitionShape(d)
  {
    SettingsShape();
    ContentShape();
    MediaShape();
    SharedShape();
    AgentShape();
  }

  // ---------------------------------------------------------------- the shipped profiles

  const DEFAULT_SETTINGS := ["settings.core", "settings.appearance", "settings.presets", "settings.layout"]

  const DEFAULT_CONTENT := [
    "chat.character.history", "chat.group.metadata", "chat.group.history", "character.cards", "character.avatars",
    "world.info", "preset.openai", "preset.novelai", "preset.textgen", "preset.kobold",
    "prompt.instruct", "prompt.context", "prompt.sysprompt", "prompt.reasoning"]

  const DEFAULT_MEDIA := [
    "quick.replies", "ui.themes", "ui.moving", "media.backgrounds", "media.assets", "media.user_images",
    "user.files", "user.workflows", "extensions.local"]

  const DEFAULT_SHARED := [
    "extensions.third_party", "extensions.sources", "extensions.store", "agent.profiles", "agent.llm_connections",
    "agent.skills"]

  const RUN_JOURNAL_ID := "agent.run_journal"

  const DEFAULT_AGENT := ["agent.persistent_state", RUN_JOURNAL_ID]

  const DEFAULT_IDS: seq<string> := DEFAULT_SETTINGS + DEFAULT_CONTENT + DEFAULT_MEDIA + DEFAULT_SHARED + DEFAULT_AGENT

  const RUN_DETAILS := [
    "agent.run_context", "agent.run_workspace_projection", "agent.run_tool_io", "agent.workspace_outputs",
    "agent.workspace_scratch", "agent.tasks", "agent.model_responses", "agent.checkpoints"]

  const RUN_HISTORY_IDS: seq<string> := [RUN_JOURNAL_ID] + RUN_DETAILS

  const FULL_OTHERS := ["secrets.api_keys", "media.thumbnails", "vectors", DATABASE_DATASET_ID, "backups"]

  const FULL_EXTRA_IDS: seq<string> := FULL_OTHERS + RUN_DETAILS

  const DEFAULT_PROFILE := Profile("tauritavern.default", Direct(DEFAULT_IDS))
  const FULL_PROFILE := Profile("tauritavern.full", DefaultPlus(FULL_EXTRA_IDS))
  const RUN_HISTORY_PROFILE := Profile("agent.run_history.full", Direct(RUN_HISTORY_IDS))

  const PROFILES := ProfileTable(DEFAULT_IDS, [DEFAULT_PROFILE, FULL_PROFILE, RUN_HISTORY_PROFILE])

  ghost predicate AllKnown(table: seq<Definition>, ids: seq<string>) {
    forall i :: 0 <= i < |ids| ==> KnownId(table, ids[i])
  }

  lemma SettingsKnown()
    ensures AllKnown(SETTINGS_DATASETS, DEFAULT_SETTINGS)
  {
    forall i | 0 <= i < |DEFAULT_SETTINGS|
      ensures KnownId(SETTINGS_DATASETS, DEFAULT_SETTINGS[i])
    {
      assert SETTINGS_DATASETS[i].id == DEFAULT_SETTINGS[i];
    }
  }

  lemma ContentKnown()
    ensures AllKnown(CONTENT_DATASETS, DEFAULT_CONTENT)
  {
    forall i | 0 <= i < |DEFAULT_CONTENT|
      ensures KnownId(CONTENT_DATASETS, DEFAULT_CONTENT[i])
    {
      assert CONTENT_DATASETS[i].id == DEFAULT_CONTENT[i];
    }
  }

  lemma MediaKnown()
    ensures AllKnown(MEDIA_DATASETS, DEFAULT_MEDIA)
  {
    forall i | 0 <= i < |DEFAULT_MEDIA|
      ensures KnownId(MEDIA_DATASETS, DEFAULT_MEDIA[i])
    {
      assert MEDIA_DATASETS[if i < 5 then i else if i < 8 then i + 1 else 11].id == DEFAULT_MEDIA[i];
    }
  }

  lemma SharedKnown()
    ensures AllKnown(SHARED_DATASETS, DEFAULT_SHARED)
  {
    forall i | 0 <= i < |DEFAULT_SHARED|
      ensures KnownId(SHARED_DATASETS, DEFAULT_SHARED[i])
    {
      assert SHARED_DATASETS[if i < 3 then i else i + 1].id == DEFAULT_SHARED[i];
    }
  }

  lemma AgentKnown()
    ensures AllKnown(AGENT_DATASETS, DEFAULT_AGENT) && AllKnown(AGENT_DATASETS, RUN_DETAILS)
  {
    forall i | 0 <= i < |DEFAULT_AGENT|
      ensures KnownId(AGENT_DATASETS, DEFAULT_AGENT[i])
    {
      assert AGENT_DATASETS[i].id == DEFAULT_AGENT[i];
    }
    forall i | 0 <= i < |RUN_DETAILS|
      ensures KnownId(AGENT_DATASETS, RUN_DETAILS[i])
    {
      assert AGENT_DATASETS[i + 2].id == RUN_DETAILS[i];
    }
  }

  lemma OthersKnown()
    ensures KnownId(SETTINGS_DATASETS, FULL_OTHERS[0]) && KnownId(SHARED_DATASETS, FULL_OTHERS[3])
    ensures KnownId(MEDIA_DATASETS, FULL_OTHERS[1]) && KnownId(MEDIA_DATASETS, FULL_OTHERS[2])
    ensures KnownId(MEDIA_DATASETS, FULL_OTHERS[4])
  {
    assert SETTINGS_DATASETS[4].id == FULL_OTHERS[0] && SHARED_DATASETS[3].id == FULL_OTHERS[3];
    assert MEDIA_DATASETS[5].id == FULL_OTHERS[1] && MEDIA_DATASETS[9].id == FULL_OTHERS[2];
    assert MEDIA_DATASETS[10].id == FULL_OTHERS[4];
  }

  /** A part of the table knows nothing that the table does not. */
  lemma KnownInPart(part: seq<Definition>, ids: seq<string>)
    requires AllKnown(part, ids) && forall d :: d in part ==> d in DATASETS
    ensures forall id :: id in ids ==> KnownId(DATASETS, id)
  {
    forall i | 0 <= i < |ids|
      ensures KnownId(DATASETS, ids[i])
    {
      assert FindDefinition(part, ids[i]).value in DATASETS;
    }
  }

  lemma DefaultsKnown()
    ensures forall id :: id in DEFAULT_IDS ==> KnownId(DATASETS, id)
  {
    SettingsKnown();
    ContentKnown();
    MediaKnown();
    SharedKnown();
    AgentKnown();
    KnownInPart(SETTINGS_DATASETS, DEFAULT_SETTINGS);
    KnownInPart(CONTENT_DATASETS, DEFAULT_CONTENT);
    KnownInPart(MEDIA_DATASETS, DEFAULT_MEDIA);
    KnownInPart(SHARED_DATASETS, DEFAULT_SHARED);
    KnownInPart(AGENT_DATASETS, DEFAULT_AGENT);
  }

  lemma OthersInTable()
    ensures KnownId(DATASETS, FULL_OTHERS[0]) && KnownId(DATASETS, FULL_OTHERS[1]) && KnownId(DATASETS, FULL_OTHERS[2])
    ensures KnownId(DATASETS, FULL_OTHERS[3]) && KnownId(DATASETS, FULL_OTHERS[4])
  {
    OthersKnown();
    assert FindDefinition(SETTINGS_DATASETS, FULL_OTHERS[0]).value in DATASETS;
    assert FindDefinition(MEDIA_DATASETS, FULL_OTHERS[1]).value in DATASETS;
    assert FindDefinition(MEDIA_DATASETS, FULL_OTHERS[2]).value in DATASETS;
    assert FindDefinition(SHARED_DATASETS, FULL_OTHERS[3]).value in DATASETS;
    assert FindDefinition(MEDIA_DATASETS, FULL_OTHERS[4]).value in DATASETS;
  }

  lemma OthersAllKnown()
    ensures forall id :: id in FULL_OTHERS ==> KnownId(DATASETS, id)
  {
    OthersInTable();
    forall i | 0 <= i < |FULL_OTHERS|
      ensures KnownId(DATASETS, FULL_OTHERS[i])
    {
      assert i == 0 || i == 1 || i == 2 || i == 3 || i == 4;
    }
  }

  lemma ExtrasKnown()
    ensures forall id :: id in FULL_EXTRA_IDS || id in RUN_HISTORY_IDS ==> KnownId(DATASETS, id)
  {
    AgentKnown();
    OthersAllKnown();
    KnownInPart(AGENT_DATASETS, RUN_DETAILS);
    KnownInPart(AGENT_DATASETS, DEFAULT_AGENT);
    assert DEFAULT_AGENT[1] == RUN_JOURNAL_ID;
  }

  /** The shipped profiles name only datasets of the table. */
  lemma ShippedProfilesKnown()
    ensures ProfilesKnown(DATASETS, PROFILES)
  {
    DefaultsKnown();
    ExtrasKnown();
    forall id | IsProfile(PROFILES, id)
      ensures LeavesOf(PROFILES, id) != [] && forall leaf :: leaf in LeavesOf(PROFILES, id) ==> KnownId(DATASETS, leaf)
    {
      var p := FindProfile(PROFILES.profiles, id).value;
      assert p in {DEFAULT_PROFILE, FULL_PROFILE, RUN_HISTORY_PROFILE};
    }
  }

  lemma {:induction false} FindLater(a: seq<Definition>, b: seq<Definition>, id: string)
    requires forall i :: 0 <= i < |a| ==> a[i].id != id
    ensures FindDefinition(a + b, id) == FindDefinition(b, id)
  {
    if a == [] {
      assert a + b == b;
    } else {
      assert (a + b)[0] == a[0] && (a + b)[1..] == a[1..] + b;
      FindLater(a[1..], b, id);
    }
  }

  const CHAT_HISTORY := "chat.character.history"

  lemma ChatHistoryDefinition()
    ensures FindDefinition(DATASETS, CHAT_HISTORY) == Some(Public(CHAT_HISTORY, [["default-user", "chats"]], []))
  {
    var rest := CONTENT_DATASETS + MEDIA_DATASETS + SHARED_DATASETS + AGENT_DATASETS;
    assert DATASETS == SETTINGS_DATASETS + rest;
    assert rest[0] == CONTENT_DATASETS[0];
    forall i | 0 <= i < |SETTINGS_DATASETS|
      ensures SETTINGS_DATASETS[i].id != CHAT_HISTORY
    {
      assert SETTINGS_DATASETS[i].id[0] == 's';
    }
    FindLater(SETTINGS_DATASETS, rest, CHAT_HISTORY);
  }

  lemma OneDirectoryInScope(policy: ResolvedPolicy, table: seq<Definition>, ids: seq<string>, id: string, d: Path,
                            p: Path)
    requires Resolves(policy, table, ids) && id in ids && FindDefinition(table, id) == Some(Public(id, [d], []))
    requires d <= p && !GloballyExcluded(p)
    ensures policy.ContainsPath(p)
  {
    assert d in [d];
    PublicDirectoryInScope(policy, table, ids, id, [d], [], d, p);
  }

  lemma ChatsPrefix(p: Path)
    requires |p| >= 2 && p[0] == "default-user" && p[1] == "chats"
    ensures ["default-user", "chats"] <= p
  {
  }

  /** With the chat history selected, every chat file that nothing excludes is in scope. */
  lemma ChatsAreInScope(policy: ResolvedPolicy, ids: seq<string>, p: Path)
    requires Resolves(policy, DATASETS, ids) && CHAT_HISTORY in ids
    requires |p| >= 2 && p[0] == "default-user" && p[1] == "chats" && !GloballyExcluded(p)
    ensures policy.ContainsPath(p)
  {
    ChatHistoryDefinition();
    ChatsPrefix(p);
    OneDirectoryInScope(policy, DATASETS, ids, CHAT_HISTORY, ["default-user", "chats"], p);
  }

  const FULL_IDS: seq<string> := DEFAULT_IDS + FULL_EXTRA_IDS

  lemma FullCoversContent(i: nat)
    ensures i < |SETTINGS_DATASETS| ==> SETTINGS_DATASETS[i].id in FULL_IDS
    ensures i < |CONTENT_DATASETS| ==> CONTENT_DATASETS[i].id in FULL_IDS
  {
    if i < |CONTENT_DATASETS| { assert CONTENT_DATASETS[i].id == DEFAULT_CONTENT[i]; }
    if i < |SETTINGS_DATASETS| {
      assert SETTINGS_DATASETS[i].id == if i < 4 then DEFAULT_SETTINGS[i] else FULL_OTHERS[0];
    }
  }

  lemma FullCoversMedia(i: nat)
    requires i < |MEDIA_DATASETS|
    ensures MEDIA_DATASETS[i].id in FULL_IDS
  {
    assert MEDIA_DATASETS[i].id ==
      if i == 5 then FULL_OTHERS[1] else if i == 9 then FULL_OTHERS[2] else if i == 10 then FULL_OTHERS[4]
      else DEFAULT_MEDIA[if i < 5 then i else if i < 9 then i - 1 else 8];
  }

  lemma FullCoversShared(i: nat)
    ensures i < |SHARED_DATASETS| ==> SHARED_DATASETS[i].id in FULL_IDS
    ensures i < |AGENT_DATASETS| ==> AGENT_DATASETS[i].id in FULL_IDS
  {
    if i < |SHARED_DATASETS| {
      assert SHARED_DATASETS[i].id == if i == 3 then FULL_OTHERS[3] else DEFAULT_SHARED[if i < 3 then i else i - 1];
    }
    if i < |AGENT_DATASETS| {
      assert AGENT_DATASETS[i].id == if i < 2 then DEFAULT_AGENT[i] else RUN_DETAILS[i - 2];
    }
  }

  /** The full profile stands for every dataset of the table. */
  lemma FullIsEverything(d: Definition)
    requires d in DATASETS
    ensures d.id in LeavesOf(PROFILES, FULL_PROFILE.id)
  {
    assert PROFILES.profiles[1] == FULL_PROFILE;
    assert LeavesOf(PROFILES, FULL_PROFILE.id) == FULL_IDS;
    if i :| 0 <= i < |SETTINGS_DATASETS| && SETTINGS_DATASETS[i] == d { FullCoversContent(i); }
    else if i :| 0 <= i < |CONTENT_DATASETS| && CONTENT_DATASETS[i] == d { FullCoversContent(i); }
    else if i :| 0 <= i < |MEDIA_DATASETS| && MEDIA_DATASETS[i] == d { FullCoversMedia(i); }
    else if i :| 0 <= i < |SHARED_DATASETS| && SHARED_DATASETS[i] == d { FullCoversShared(i); }
    else if i :| 0 <= i < |AGENT_DATASETS| && AGENT_DATASETS[i] == d { FullCoversShared(i); }
  }

  /** `ResolvedDatasetPolicy::from_selection` on the shipped table and profiles. */
  method FromSelection(version: int, ids: seq<string>) returns (r: Result<ResolvedPolicy>)
    ensures r.Ok? <==>
      && version == POLICY_VERSION && ids != []
      && forall i :: 0 <= i < |ids| ==> Selectable(DATASETS, PROFILES, ids[i])
    ensures r.Ok? ==> r.value.selection == Firsts(Leaves(PROFILES, ids)) && SortedFiles(r.value.files)
    ensures r.Ok? ==> Resolves(r.value, DATASETS, Leaves(PROFILES, ids)) && r.value.Shaped()
  {
    CatalogShape();
    ShippedProfilesKnown();
    SelectionIsKnown(DATASETS, PROFILES, ids);
    r := FromTable(DATASETS, PROFILES, version, ids);
  }
}
