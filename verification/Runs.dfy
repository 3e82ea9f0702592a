/** The states of an automation run, shared by the dispatcher modules. */
module Runs {
  datatype RunStatus = Scheduled | Running | Delegated | Completed | Failed | Cancelled
}
