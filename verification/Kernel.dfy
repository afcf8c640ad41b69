/**
 The kernel's side of io.max: how it answers a write, and the line that answer leaves behind.
 */
module Kernel {
  import opened Limits

  /** How the kernel answers a rule write: taken, refused, or silently turned into another line. */
  datatype Reply = Accept | Reject | Coerce(line: Option<Rule>)

  /** The line of a device after writing `rule` where `line` was; an all-max rule removes it. */
  function WriteLine(line: Option<Rule>, rule: Rule, reply: Reply): Option<Rule> {
    match reply
    case Accept => if rule.Unlimited() then None else Some(rule)
    case Reject => line
    case Coerce(other) => other
  }

  function SetLine(kernel: map<Device, Rule>, dev: Device, line: Option<Rule>): map<Device, Rule> {
    match line case None => kernel - {dev} case Some(r) => kernel[dev := r]
  }
}
