// A pipeline configuration as read from a configuration file
// (src/config/pipeline.rs): inputs, outputs, an error policy name and a
// format order, all still as text.
module Pipelines {
  import opened Wrappers

  datatype InputConfig = InputConfig(
    id: string,
    kind: string,
    path: Option<string>,
    url: Option<string>,
    format: Option<string>)

  datatype OutputConfig = OutputConfig(
    id: string,
    kind: string,
    path: Option<string>,
    format: Option<string>,
    fileExistsPolicy: Option<string>)

  datatype PipelineConfig = PipelineConfig(
    inputs: seq<InputConfig>,
    outputs: seq<OutputConfig>,
    errorPolicy: Option<string>,
    formatOrder: Option<seq<string>>)

  /** `PipelineConfig::new` / `default`: nothing configured. */
  function NewPipelineConfig(): (p: PipelineConfig)
    ensures p.inputs == [] && p.outputs == [] && p.errorPolicy.None? && p.formatOrder.None?
  {
    PipelineConfig([], [], None, None)
  }

  function AddInput(p: PipelineConfig, i: InputConfig): (q: PipelineConfig)
    ensures q.inputs == p.inputs + [i]
    ensures q.outputs == p.outputs && q.errorPolicy == p.errorPolicy && q.formatOrder == p.formatOrder
  {
    p.(inputs := p.inputs + [i])
  }

  function AddOutput(p: PipelineConfig, o: OutputConfig): (q: PipelineConfig)
    ensures q.outputs == p.outputs + [o]
    ensures q.inputs == p.inputs && q.errorPolicy == p.errorPolicy && q.formatOrder == p.formatOrder
  {
    p.(outputs := p.outputs + [o])
  }

  function WithErrorPolicy(p: PipelineConfig, policy: string): (q: PipelineConfig)
    ensures q.errorPolicy == Some(policy)
    ensures q.inputs == p.inputs && q.outputs == p.outputs && q.formatOrder == p.formatOrder
  {
    p.(errorPolicy := Some(policy))
  }

  function WithFormatOrder(p: PipelineConfig, order: seq<string>): (q: PipelineConfig)
    ensures q.formatOrder == Some(order)
    ensures q.inputs == p.inputs && q.outputs == p.outputs && q.errorPolicy == p.errorPolicy
  {
    p.(formatOrder := Some(order))
  }

  /** Adding inputs one by one keeps them in the order they were added,
      whatever outputs are added in between. */
  lemma AddsKeepOrder(p: PipelineConfig, a: InputConfig, o: OutputConfig, b: InputConfig)
    ensures AddInput(AddOutput(AddInput(p, a), o), b).inputs == p.inputs + [a, b]
    ensures AddInput(AddOutput(AddInput(p, a), o), b).outputs == p.outputs + [o]
  {
  }
}
