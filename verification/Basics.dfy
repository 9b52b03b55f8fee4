/** What several components share: absolute values and the side of a position. */
module Basics {

  datatype Side = LONG | SHORT

  function Abs(x: real): real { if x < 0.0 then -x else x }
}
