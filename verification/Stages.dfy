/** The stages of a job on the wire. */
module Stages {
  import opened Options
  import opened JobProtocol

  const STAGE_NAMES: seq<string> := [
    "queued", "preparing", "waiting_for_runner", "assigned", "pulling_image",
    "starting_container", "running", "uploading_artifacts", "cleaning_workspace", "done"]

  const STAGES: seq<Stage> := [
    AtQueue, Preparing, WaitingForRunner, Assigned, PullingImage,
    StartingContainer, Running, UploadingArtifacts, CleaningWorkspace, Done]

  /** The stage a wire name stands for; any other text is no stage. */
  function StageNamed(name: string, from: nat := 0): (stage: Option<Stage>)
    requires from <= |STAGE_NAMES|
    ensures stage.Some? ==> exists i :: from <= i < |STAGE_NAMES| && STAGE_NAMES[i] == name && STAGES[i] == stage.value
    ensures stage == None ==> forall i :: from <= i < |STAGE_NAMES| ==> STAGE_NAMES[i] != name
    decreases |STAGE_NAMES| - from
  {
    if from == |STAGE_NAMES| then None
    else if STAGE_NAMES[from] == name then Some(STAGES[from])
    else StageNamed(name, from + 1)
  }

  /** The name a stage goes by. */
  function WireName(stage: Stage): string {
    match stage
    case AtQueue => "queued"
    case Preparing => "preparing"
    case WaitingForRunner => "waiting_for_runner"
    case Assigned => "assigned"
    case PullingImage => "pulling_image"
    case StartingContainer => "starting_container"
    case Running => "running"
    case UploadingArtifacts => "uploading_artifacts"
    case CleaningWorkspace => "cleaning_workspace"
    case Done => "done"
  }

  lemma ListedStage(i: nat)
    requires i < |STAGES|
    ensures |STAGES| == |STAGE_NAMES| && STAGE_NAMES[i] == WireName(STAGES[i])
  {
    assert STAGES[0] == AtQueue && STAGES[1] == Preparing && STAGES[2] == WaitingForRunner && STAGES[3] == Assigned;
    assert STAGES[4] == PullingImage && STAGES[5] == StartingContainer && STAGES[6] == Running;
    assert STAGES[7] == UploadingArtifacts && STAGES[8] == CleaningWorkspace && STAGES[9] == Done;
  }

  lemma PlaceOf(stage: Stage) returns (i: nat)
    ensures i < |STAGES| && STAGES[i] == stage
  {
    match stage
    case AtQueue => i := 0;
    case Preparing => i := 1;
    case WaitingForRunner => i := 2;
    case Assigned => i := 3;
    case PullingImage => i := 4;
    case StartingContainer => i := 5;
    case Running => i := 6;
    case UploadingArtifacts => i := 7;
    case CleaningWorkspace => i := 8;
    case Done => i := 9;
  }

  /** Length and first letter tell the names apart. */
  function Mark(stage: Stage): (int, char) {
    match stage
    case AtQueue => (6, 'q')
    case Preparing => (9, 'p')
    case WaitingForRunner => (18, 'w')
    case Assigned => (8, 'a')
    case PullingImage => (13, 'p')
    case StartingContainer => (18, 's')
    case Running => (7, 'r')
    case UploadingArtifacts => (19, 'u')
    case CleaningWorkspace => (18, 'c')
    case Done => (4, 'd')
  }

  lemma NameHasMark(stage: Stage)
    ensures WireName(stage) != "" && (|WireName(stage)|, WireName(stage)[0]) == Mark(stage)
  {
  }

  lemma MarksDiffer(a: Stage, b: Stage)
    ensures Mark(a) == Mark(b) ==> a == b
  {
  }

  lemma NamesDiffer(a: Stage, b: Stage)
    requires WireName(a) == WireName(b)
    ensures a == b
  {
    NameHasMark(a);
    NameHasMark(b);
    MarksDiffer(a, b);
  }

  /** A name stands for a stage iff the stage goes by it. */
  lemma NameMeansStage(name: string, stage: Stage)
    ensures StageNamed(name) == Some(stage) <==> name == WireName(stage)
  {
    var named := StageNamed(name);
    if named.Some? {
      var i :| 0 <= i < |STAGE_NAMES| && STAGE_NAMES[i] == name && STAGES[i] == named.value;
      ListedStage(i);
      if name == WireName(stage) {
        NamesDiffer(named.value, stage);
      }
    } else {
      var i := PlaceOf(stage);
      ListedStage(i);
    }
  }
}
