/** The states a health check can report. */
module HealthStates {
  datatype HealthState = HEALTHY | DEFERRING | SUSPENDED | REPAIRING | WARNING | ERROR | TERMINAL
}
