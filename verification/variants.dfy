/**
  Where the source has a defect, the model keeps both readings: the code
  as written, and the code with the defect corrected. Each codec takes the
  reading as a parameter, and the rest of the model uses the corrected one.
 */
module Variants {
  /** The source as written, or with its defects corrected. */
  datatype Variant = AsWritten | Corrected
}
