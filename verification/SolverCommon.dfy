/** What both DBM solvers share: why a search was called off, and its limits. */
module SolverCommon {

  datatype Flag = DontTerminate | MaxItersTerminate | SolutionFoundTerminate

  datatype Limits = Limits(maxProcessed: nat, maxStates: nat)
}
