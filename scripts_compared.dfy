/** The two experiment scripts side by side: the binarization methods
    both accept select the same class, except "bireal". */
module ScriptsCompared {
  import opened Outcomes
  import opened ModuleTree
  import Frozen = QuantFrozenOutliers
  import Direction = QuantizationDirection

  /** "ste", "ir", "xnor" and "fda" behave alike in both scripts, whatever
      the outlier fraction; "bireal" quantizes with IrBinaryLinear in
      quant_frozen_outliers.py and with BinaryLinear in
      quantization_direction.py, and neither uses BiRealLinear. */
  lemma SharedChoices(fraction: string)
    ensures forall b :: b in {"ste", "ir", "xnor", "fda"} ==> Frozen.Selection(b, fraction) == Direction.Selection(b)
    ensures Frozen.Selection("bireal", fraction) == Ok(Plain(IrBinaryLinear))
    ensures Direction.Selection("bireal") == Ok(Plain(BinaryLinear))
  {
    Frozen.ArgparseChoices(fraction);
  }
}
