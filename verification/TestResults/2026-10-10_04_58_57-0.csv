TestResult.DisplayName,TestResult.Outcome,TestResult.Duration,TestResult.ResourceCount,RandomSeed
Wire.NextShift (correctness),Failed,00:00:00.3638215,2039901,0
Wire.NextShift (well-formedness),Passed,00:00:00.1758402,43022,0
