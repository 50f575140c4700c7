/** Values shared by the operators and the walker. */
module Common {

  datatype Option<+T> = None | Some(value: T)

  /** Why a run stops: a Rust panic (`assert!`, `unwrap` on nothing) or an
      I/O error propagated with `?`. */
  datatype Failure = Panic(reason: string) | IoError(path: string)

  datatype Result<+T> = Ok(value: T) | Err(failure: Failure)

  /** The `(String, f64)` pair every operator returns. */
  datatype Metric = Metric(name: string, value: real)

  /** One measured run of a benchmark: its name and its statistics table. */
  datatype RunResult = RunResult(benchmark: string, stats: map<string, real>)

  /** The entry of the result set for one benchmark. */
  datatype BenchResult = BenchResult(benchmark: string, iterations: nat, resultVec: seq<RunResult>)

  /** The message of a panicking `unwrap` on `None`. */
  const UnwrapNone := "called `Option::unwrap()` on a `None` value"
}
