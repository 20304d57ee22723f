/**
 * Skill routing: for a task, the candidate skills (those the project
 * manager suggested, then the registry's skills for the task's kind), the
 * preferred one, and the confirmation prompt shown to the user. The task
 * fields are taken already typed; the skill memory maps a task kind to the
 * skill last chosen for it.
 */
module SkillRouter {
  import opened Wrappers
  import Text
  import OrderedMap
  import SkillRegistry

  /** The fields of a task specification the router reads; a missing taskId is "". */
  datatype TaskSpec = TaskSpec(
    taskId: string,
    kind: Option<string>,
    suggestedSkills: seq<string>,
    preferredSkill: Option<string>)

  datatype SkillSuggestion = SkillSuggestion(
    taskId: string,
    kind: Option<string>,
    candidates: seq<string>,
    preferred: Option<string>,
    remembered: Option<string>,
    suggestedByPM: seq<string>)

  /** `a or b` on optional strings. */
  function OrElse(a: Option<string>, b: Option<string>): (r: Option<string>)
    ensures Text.Truthy(r) <==> Text.Truthy(a) || Text.Truthy(b)
  {
    if Text.Truthy(a) then a else b
  }

  /** The PM's suggestions, deduplicated, then the registry's skills for the kind not yet listed. */
  function Candidates(reg: SkillRegistry.Registry, task: TaskSpec): seq<string> {
    var pm := OrderedMap.AppendNew([], task.suggestedSkills);
    OrderedMap.AppendNew(pm, SkillRegistry.NamesOf(SkillRegistry.KindSpecs(reg, task.kind)))
  }

  /** The remembered skill for a non-empty kind, otherwise None. */
  function Remembered(memory: map<string, string>, kind: Option<string>): Option<string> {
    if Text.Truthy(kind) && kind.value in memory then Some(memory[kind.value]) else None
  }

  /** The task's preferred skill, else the remembered one, else the first candidate. */
  function Preferred(task: TaskSpec, remembered: Option<string>, candidates: seq<string>): Option<string> {
    var p := OrElse(task.preferredSkill, remembered);
    if !Text.Truthy(p) && candidates != [] then Some(candidates[0]) else p
  }

  /** `SkillRouter.suggest` */
  function Suggestion(reg: SkillRegistry.Registry, memory: map<string, string>, task: TaskSpec): SkillSuggestion {
    var candidates := Candidates(reg, task);
    var remembered := Remembered(memory, task.kind);
    SkillSuggestion(task.taskId, task.kind, candidates, Preferred(task, remembered, candidates), remembered, task.suggestedSkills)
  }

  method Suggest(reg: SkillRegistry.Registry, memory: map<string, string>, task: TaskSpec) returns (s: SkillSuggestion)
    ensures s == Suggestion(reg, memory, task)
    ensures s.suggestedByPM == task.suggestedSkills
  {
    var pm := task.suggestedSkills;
    var candidates: seq<string> := [];
    var i := 0;
    while i < |pm|
      invariant 0 <= i <= |pm|
      invariant candidates == OrderedMap.AppendNew([], pm[..i])
    {
      assert pm[..i + 1][..i] == pm[..i];
      if pm[i] !in candidates {
        candidates := candidates + [pm[i]];
      }
      i := i + 1;
    }
    assert pm[..i] == pm;
    ghost var base := candidates;
    var specs := SkillRegistry.ByKind(reg, task.kind);
    var names := SkillRegistry.NamesOf(specs);
    var j := 0;
    while j < |specs|
      invariant 0 <= j <= |specs|
      invariant candidates == OrderedMap.AppendNew(base, names[..j])
    {
      assert names[..j + 1][..j] == names[..j];
      if specs[j].skillName !in candidates {
        candidates := candidates + [specs[j].skillName];
      }
      j := j + 1;
    }
    assert names[..j] == names;
    var remembered := if Text.Truthy(task.kind) && task.kind.value in memory then Some(memory[task.kind.value]) else None;
    var preferred := if Text.Truthy(task.preferredSkill) then task.preferredSkill else remembered;
    if !Text.Truthy(preferred) && candidates != [] {
      preferred := Some(candidates[0]);
    }
    s := SkillSuggestion(task.taskId, task.kind, candidates, preferred, remembered, pm);
  }

  const RememberedLead: string := "检测到你上次在 "
  const SuggestLead: string := "建议使用 "
  const GenericLead: string := "请为任务 "

  /** The confirmation command the user types to choose `skill` for the task. */
  function ConfirmCommand(project: string, taskId: string, skill: string): string {
    "确认命令：天工 " + project + " 选择skill " + taskId + " " + skill
  }

  /** `SkillRouter.build_prompt` */
  function BuildPrompt(project: string, s: SkillSuggestion): string {
    if Text.Truthy(s.remembered) then
      RememberedLead + Text.Show(s.kind) + " 任务使用的是 " + s.remembered.value + "。"
        + "\n是否继续使用？" + ConfirmCommand(project, s.taskId, s.remembered.value)
    else if Text.Truthy(s.preferred) then
      SuggestLead + s.preferred.value + "。" + "\n" + ConfirmCommand(project, s.taskId, s.preferred.value)
    else
      GenericLead + s.taskId + " 选择 skill。"
  }

  // ---------------------------------------------------------------------
  // Properties

  /** `s` ends with `suffix`. */
  predicate EndsWith(s: string, suffix: string) {
    |suffix| <= |s| && s[|s| - |suffix|..] == suffix
  }

  /**
   * The prompt offers the remembered skill when there is one, otherwise the
   * preferred skill, each with a confirmation command ending in that skill;
   * with neither it asks the user to choose.
   */
  lemma PromptChoice(project: string, s: SkillSuggestion)
    ensures Text.Truthy(s.remembered) ==>
      Text.StartsWith(BuildPrompt(project, s), RememberedLead)
      && EndsWith(BuildPrompt(project, s), ConfirmCommand(project, s.taskId, s.remembered.value))
    ensures !Text.Truthy(s.remembered) && Text.Truthy(s.preferred) ==>
      Text.StartsWith(BuildPrompt(project, s), SuggestLead)
      && EndsWith(BuildPrompt(project, s), ConfirmCommand(project, s.taskId, s.preferred.value))
    ensures !Text.Truthy(s.remembered) && !Text.Truthy(s.preferred) ==>
      BuildPrompt(project, s) == GenericLead + s.taskId + " 选择 skill。"
  {
    var p := BuildPrompt(project, s);
    if Text.Truthy(s.remembered) {
      var head := RememberedLead + Text.Show(s.kind) + " 任务使用的是 " + s.remembered.value + "。" + "\n是否继续使用？";
      assert p == RememberedLead + (Text.Show(s.kind) + " 任务使用的是 " + s.remembered.value + "。" + "\n是否继续使用？"
        + ConfirmCommand(project, s.taskId, s.remembered.value));
      assert p == head + ConfirmCommand(project, s.taskId, s.remembered.value);
    } else if Text.Truthy(s.preferred) {
      var head := SuggestLead + s.preferred.value + "。" + "\n";
      assert p == SuggestLead + (s.preferred.value + "。" + "\n" + ConfirmCommand(project, s.taskId, s.preferred.value));
      assert p == head + ConfirmCommand(project, s.taskId, s.preferred.value);
    }
  }

  /**
   * The candidates hold no duplicates, and a skill is a candidate exactly
   * when the PM suggested it or the registry lists it for the task's kind.
   */
  lemma CandidatesMembers(reg: SkillRegistry.Registry, task: TaskSpec)
    ensures OrderedMap.Distinct(Candidates(reg, task))
    ensures forall x :: x in Candidates(reg, task) <==>
      x in task.suggestedSkills || x in SkillRegistry.NamesOf(SkillRegistry.KindSpecs(reg, task.kind))
  {
    var names := SkillRegistry.NamesOf(SkillRegistry.KindSpecs(reg, task.kind));
    OrderedMap.AppendNewSpec([], task.suggestedSkills);
    OrderedMap.AppendNewSpec(OrderedMap.AppendNew([], task.suggestedSkills), names);
  }

  /**
   * The PM's suggestions come first, each once, in the order of their
   * first mention; the registry's skills follow.
   */
  lemma CandidatesOrder(reg: SkillRegistry.Registry, task: TaskSpec)
    ensures var pm := OrderedMap.AppendNew([], task.suggestedSkills);
      && |pm| <= |Candidates(reg, task)|
      && Candidates(reg, task)[..|pm|] == pm
      && (forall x :: x in pm <==> x in task.suggestedSkills)
      && (forall i, j, q :: 0 <= i < j < |pm| && 0 <= q < |task.suggestedSkills| && task.suggestedSkills[q] == pm[j] ==>
            pm[i] in task.suggestedSkills[..q])
  {
    var pm := OrderedMap.AppendNew([], task.suggestedSkills);
    var names := SkillRegistry.NamesOf(SkillRegistry.KindSpecs(reg, task.kind));
    OrderedMap.AppendNewSpec([], task.suggestedSkills);
    OrderedMap.AppendNewOrder([], task.suggestedSkills);
    OrderedMap.AppendNewSpec(pm, names);
  }

  /**
   * In a loaded registry, a skill beyond the PM's is a candidate exactly
   * when it is registered and supports the task's kind.
   */
  lemma RegistryCandidates(reg: SkillRegistry.Registry, task: TaskSpec, x: string)
    requires OrderedMap.Valid(reg.skills) && SkillRegistry.KeyedByName(reg.skills)
    requires x !in task.suggestedSkills
    ensures x in Candidates(reg, task) <==>
      Text.Truthy(task.kind) && x in reg.skills.values && SkillRegistry.Supports(reg.skills.values[x], task.kind.value)
  {
    CandidatesMembers(reg, task);
    var specs := SkillRegistry.KindSpecs(reg, task.kind);
    var names := SkillRegistry.NamesOf(specs);
    if Text.Truthy(task.kind) {
      var order, values, kind := reg.skills.order, reg.skills.values, task.kind.value;
      if x in names {
        var i :| 0 <= i < |names| && names[i] == x;
        SkillRegistry.SupportingSpec(order, values, kind, specs[i]);
        var k :| 0 <= k < |order| && order[k] in values && values[order[k]] == specs[i];
      }
      if x in values && SkillRegistry.Supports(values[x], kind) {
        var k :| 0 <= k < |order| && order[k] == x;
        SkillRegistry.SupportingSpec(order, values, kind, values[x]);
        var i :| 0 <= i < |specs| && specs[i] == values[x];
        assert names[i] == x;
      }
    }
  }

  /**
   * The remembered skill is the memory's entry for the kind, and only when
   * a kind is given; the preferred skill is the task's own choice, else the
   * remembered one, else the first candidate.
   */
  lemma PreferredChoice(reg: SkillRegistry.Registry, memory: map<string, string>, task: TaskSpec)
    ensures var s := Suggestion(reg, memory, task);
      && (s.remembered.Some? <==> Text.Truthy(task.kind) && task.kind.value in memory)
      && (s.remembered.Some? ==> s.remembered.value == memory[task.kind.value])
      && (Text.Truthy(task.preferredSkill) ==> s.preferred == task.preferredSkill)
      && (!Text.Truthy(task.preferredSkill) && Text.Truthy(s.remembered) ==> s.preferred == s.remembered)
      && (!Text.Truthy(task.preferredSkill) && !Text.Truthy(s.remembered) && s.candidates != [] ==>
            s.preferred == Some(s.candidates[0]))
      && (Text.Truthy(s.preferred) ==>
            s.preferred == task.preferredSkill || s.preferred == s.remembered || s.preferred.value in s.candidates)
  {
  }

  /**
   * A remembered skill wins the prompt even over a task that names a
   * different preferred skill: the user is asked to confirm the remembered one.
   */
  lemma RememberedWinsPrompt(project: string, reg: SkillRegistry.Registry, memory: map<string, string>, task: TaskSpec)
    requires Text.Truthy(task.kind) && task.kind.value in memory && memory[task.kind.value] != ""
    ensures EndsWith(BuildPrompt(project, Suggestion(reg, memory, task)),
      ConfirmCommand(project, task.taskId, memory[task.kind.value]))
  {
    PromptChoice(project, Suggestion(reg, memory, task));
  }

  /** With no kind, no PM suggestion and no preference, the user is asked to choose. */
  lemma NothingToSuggest(project: string, reg: SkillRegistry.Registry, memory: map<string, string>, task: TaskSpec)
    requires !Text.Truthy(task.kind) && task.suggestedSkills == [] && !Text.Truthy(task.preferredSkill)
    ensures Suggestion(reg, memory, task).candidates == []
    ensures BuildPrompt(project, Suggestion(reg, memory, task)) == GenericLead + task.taskId + " 选择 skill。"
  {
    PromptChoice(project, Suggestion(reg, memory, task));
  }
}
