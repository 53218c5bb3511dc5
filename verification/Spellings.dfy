/**
 The words and numbers the code looks for, as MLIR, the shipped transform spec and the hardware
 spell them; everywhere else they go by name.
 */
module Spellings {
  import SpecRewrite
  import SpecBatch
  import Decisions
  import Report
  import Devices
  import Onnx
  import Text
  import TileGrid

  lemma SpecWords()
    ensures SpecRewrite.LOOP == "transform.foreach_match" && SpecRewrite.LIST_END == " : ("
    ensures SpecRewrite.DECL == "transform.named_sequence @"
    ensures SpecRewrite.ADMITTED_OP == "transform.rocket.match.admitted"
    ensures SpecRewrite.DIM_BOUNDS_OP == "transform.iree.match.dim_bounds"
    ensures SpecRewrite.NO_OFFLOAD_ATTR == "no_offload" && SpecRewrite.NO_OFFLOAD_BOUND == "999999"
    ensures SpecRewrite.ELEMENTWISE_MARKER == "//@ROCKET_ELEMENTWISE@"
  {
  }

  lemma BatchWords()
    ensures SpecBatch.BATCH_MARKER == "//@ROCKET_BATCH_MATMUL@"
    ensures SpecBatch.RECORD == "rocket-record-conv-attrs" && SpecBatch.MIDDLE == "\" to %"
    ensures SpecBatch.GEMV == "gemv_funcs" && SpecBatch.UNBATCHED == "unbatched_funcs"
  {
  }

  lemma RecordWords()
    ensures Decisions.DECISIONS_ATTR == "rocket.plan_decisions = " && Decisions.UNKNOWN == "unknown"
    ensures Report.EXECUTABLE == "hal.executable " && Report.EXPORT == "hal.executable.export "
    ensures Report.DISPATCH == "stream.cmd.dispatch @" && Report.TAG == "rocket.final = \""
    ensures Devices.MARKER == "#hal.device."
  {
  }

  /** Tabs, line ends and spaces are white, printed characters are not. */
  lemma Blanks(c: char)
    ensures c == '\t' || c == '\n' || c == '\r' || c == ' ' ==> Text.White(c)
    ensures '!' <= c <= '~' ==> !Text.White(c)
  {
  }

  lemma OperatorWords()
    ensures Onnx.RESHAPE == "Reshape" && Onnx.TRANSPOSE == "Transpose" && Onnx.ROPE == "RotaryEmbedding"
    ensures Onnx.PERM == [Onnx.Attribute("perm", [0, 2, 1, 3])]
  {
  }

  lemma PlannerNumbers()
    ensures TileGrid.FEATURE_ATOM_BYTES == 16 && TileGrid.MAX_FEATURE_GRAINS == 1023
  {
  }
}
