/** The enable flag every log sink inherits from the base class Log. */
module Logs {

  /** How setEnable reads its argument: an exact, case-sensitive comparison
      with "false". Only that literal disables; anything else, including
      "False", "true" and the empty string, enables. */
  function ParseEnable(value: string): (enabled: bool)
    ensures !enabled <==> value == "false"
  {
    if value == "false" then false else true
  }

  /** Other cases of "false", the usual spellings of truth and the empty
      string all enable. */
  lemma ParseEnableExamples()
    ensures !ParseEnable("false")
    ensures ParseEnable("False") && ParseEnable("FALSE") && ParseEnable("false ")
    ensures ParseEnable("true") && ParseEnable("") && ParseEnable("anything")
  {
  }

  class Log {
    var enabled: bool

    /** A new log is enabled. */
    constructor ()
      ensures enabled
    {
      enabled := true;
    }

    /** The new flag depends only on `value`, not on the previous flag, so
        repeating a call changes nothing. A Dafny `string` is never null,
        which is what zoom4j's setEnable demands of `value` (it calls
        `value.equals`). */
    method SetEnable(value: string)
      modifies this
      ensures enabled == ParseEnable(value)
    {
      if value == "false" {
        enabled := false;
      } else {
        enabled := true;
      }
    }

    method IsEnabled() returns (b: bool)
      ensures b == enabled
    {
      b := enabled;
    }

    /** The base class releases nothing. */
    method Shutdown()
      ensures enabled == old(enabled)
    {
    }
  }
}
