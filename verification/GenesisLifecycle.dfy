/** The lifecycle of a genesis, read off the history of requests (server/domain/genesis/service.py). */
module GenesisLifecycle {
  import opened Numbers
  import opened Text
  import opened Genesis

  datatype Stage = Missing | Draft(id: string) | Announced(id: string) | Archived(id: string)

  /** The stage after a history: a genesis is created where there is none, or in place of an archived one; a draft is
  announced, or archived by a rollback, which may be repeated; nothing else changes the stage. */
  ghost function StageOf(actions: seq<Action>): Stage {
    if actions == [] then Missing
    else NextStage(StageOf(actions[..|actions| - 1]), actions[|actions| - 1])
  }

  ghost function NextStage(stage: Stage, a: Action): Stage {
    match a
    case Create(id, _, _, _) => if stage.Missing? || stage.Archived? then Draft(id) else stage
    case Announce(id, _, _) => if stage == Draft(id) then Announced(id) else stage
    case Rollback(id, _, _) => if stage == Draft(id) then Archived(id) else stage
  }

  /** What a request is answered at a stage. */
  ghost function AnswerAt(stage: Stage, a: Action): Outcome {
    match a
    case Create(_, _, _, _) => if stage.Missing? || stage.Archived? then Done else Failed(GenesisAlreadyExists)
    case Announce(id, _, _) =>
      if stage.Missing? || stage.id != id then Failed(UnknownGenesis)
      else if stage.Archived? then Failed(GenesisArchived)
      else if stage.Announced? then Failed(AlreadyAnnounced)
      else Done
    case Rollback(id, _, _) =>
      if stage.Missing? || stage.id != id then Failed(UnknownGenesis)
      else if stage.Announced? then Failed(ImmutableAfterAnnouncement)
      else Done
  }

  ghost predicate AtStage(s: State, stage: Stage) {
    match stage
    case Missing => s.record.None?
    case Draft(id) =>
      s.record.Some? && s.record.value.genesisId == id
      && s.record.value.announcedAt.None? && s.record.value.archivedAt.None?
    case Announced(id) =>
      s.record.Some? && s.record.value.genesisId == id
      && s.record.value.announcedAt.Some? && s.record.value.archivedAt.None?
    case Archived(id) =>
      s.record.Some? && s.record.value.genesisId == id
      && s.record.value.announcedAt.None? && s.record.value.archivedAt.Some?
  }

  lemma {:induction false} StepByStage(setup: Setup, s: State, stage: Stage, a: Action)
    requires AtStage(s, stage)
    ensures OutcomeOf(s, a) == AnswerAt(stage, a)
    ensures AtStage(Apply(setup, s, a), NextStage(stage, a))
  {
    hide MerkleRoot, NormalizeAll, Strip;
  }

  /** Over every history the stored record is at the stage that the requests say, and every request is answered by that
  stage. */
  lemma {:induction false} StageByHistory(setup: Setup, actions: seq<Action>)
    ensures AtStage(Run(setup, State(None, []), actions), StageOf(actions))
    ensures forall a :: OutcomeOf(Run(setup, State(None, []), actions), a) == AnswerAt(StageOf(actions), a)
  {
    if actions != [] {
      hide Apply, OutcomeOf, AtStage, NextStage, AnswerAt;
      var before, last := actions[..|actions| - 1], actions[|actions| - 1];
      StageByHistory(setup, before);
      StepByStage(setup, Run(setup, State(None, []), before), StageOf(before), last);
    }
    var s := Run(setup, State(None, []), actions);
    hide Run;
    forall a
      ensures OutcomeOf(s, a) == AnswerAt(StageOf(actions), a)
    {
      StepByStage(setup, s, StageOf(actions), a);
    }
  }

  /** What a request records: announcing and rolling back keep everything that was signed and note their time and their
  message without the white space around it; a refused request records nothing. */
  lemma {:induction false} WhatIsRecorded(setup: Setup, s: State, a: Action, before: string, text: string,
                                          after: string)
    requires Blank(before) && Blank(after) && Trimmed(text)
    requires a.Announce? ==> a.message == before + text + after
    requires a.Rollback? ==> a.reason == before + text + after
    ensures var done := Apply(setup, s, a);
      if OutcomeOf(s, a) != Done then done == s
      else if a.Create? then done.record.Some? && done.record.value.createdBy == a.admin
                             && done.record.value.createdAt == a.createdAt && done.record.value.announcedAt.None?
      else
        && s.record.Some? && done.snapshots == s.snapshots
        && var found, kept := s.record.value, done.record;
        && kept.Some?
        && (a.Announce? ==> kept == Some(found.(announcedAt := Some(a.now), publicMessage := text,
                                              archivedAt := None, rollbackReason := "")))
        && (a.Rollback? ==> kept == Some(found.(announcedAt := None, archivedAt := Some(a.now),
                                                rollbackReason := text)))
  {
    StripRemovesSurroundings(before, text, after);
    hide MerkleRoot, NormalizeAll, Strip;
  }
}
