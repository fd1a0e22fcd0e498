/** The engine candidates that the detection layers pass along (src/engines/detector.rs). */
module Engines {
  import opened Basics

  datatype EngineType = Vllm | Sglang | Ollama | LlamaCpp

  datatype DeploymentMode = Native | Docker

  datatype Key = Keyed(engineType: EngineType, endpoint: string)

  datatype DetectedEngine = DetectedEngine(
    engineType: EngineType,
    endpoint: string,
    mode: DeploymentMode,
    servedModel: Option<string>,
    pids: seq<nat>,
    containerId: Option<string>,
    fallbacks: seq<string>)
  {
    function Key(): Key {
      Keyed(engineType, endpoint)
    }
  }

  /** One candidate per engine type and endpoint. */
  ghost predicate UniqueKeys(cs: seq<DetectedEngine>) {
    forall i, j :: 0 <= i < j < |cs| ==> cs[i].Key() != cs[j].Key()
  }
}
