/** A database connection that may break before any statement. */
module Connection {
  import opened Wrappers

  /** Sends one statement; `budget` says how many more the connection survives, None when it stays up. */
  method Send(budget: Option<nat>) returns (ok: bool, left: Option<nat>)
    ensures budget == None ==> ok && left == None
    ensures budget.Some? ==> ok == (budget.value > 0) && left == Some(if ok then budget.value - 1 else 0)
  {
    match budget
    case None => return true, None;
    case Some(n) => return n > 0, Some(if n > 0 then n - 1 else 0);
  }
}
