/**
 * `AlgorithmBase` of `lib/algorithm.py`: an optional step recorder and a
 * switch that says whether the algorithm reports its steps to it.
 */
module Algorithm {
  import opened Wrappers
  import opened StepRecording

  /** `open_step_recorder` raises when no recorder was given. */
  datatype AlgorithmError = RecorderMissing

  class AlgorithmBase {
    const stepRecorder: StepRecorder?
    var enableStepRecorder: bool

    /** Recording is only ever switched on with a recorder present. */
    ghost predicate Valid()
      reads this
    {
      enableStepRecorder ==> stepRecorder != null
    }

    constructor(stepRecorder: StepRecorder?)
      ensures this.stepRecorder == stepRecorder && !enableStepRecorder && Valid()
    {
      this.stepRecorder := stepRecorder;
      enableStepRecorder := false;
    }

    method OpenStepRecorder() returns (r: Result<(), AlgorithmError>)
      requires Valid()
      modifies this
      ensures Valid()
      ensures stepRecorder == null ==> r == Failure(RecorderMissing) && !enableStepRecorder
      ensures stepRecorder != null ==> r == Success(()) && enableStepRecorder
    {
      if stepRecorder == null {
        return Failure(RecorderMissing);
      }
      enableStepRecorder := true;
      return Success(());
    }

    method CloseStepRecorder()
      modifies this
      ensures Valid() && !enableStepRecorder
    {
      enableStepRecorder := false;
    }
  }
}
