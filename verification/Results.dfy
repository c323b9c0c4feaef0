/** What an instruction or a helper of the program can end with. */
module Results {

  /** errors.rs, plus the two ways a call dies without one of its codes. */
  datatype Error =
    | PrevBlockCommitment
    | PrevBlock
    | ErrDiffTarget
    | ErrPowTooLow
    | ErrTimestampTooLow
    | ErrTimestampTooHigh
    | NoHeaders
    | ForkTooShort
    | ErrInit
    | BlockConfirmations
    | MerkleRoot
    | InvalidForkId
    | InvalidRemainingAccounts
    | InvalidHeaderTopic
    | NoDepositOutputs
    | BadAccount  // the framework refuses the account (absent, present, or wrongly typed)
    | Panic       // checked arithmetic, an index out of bounds, an unwrap or a failed assert

  datatype Option<+T> = None | Some(value: T)

  datatype Result<+T> = Ok(value: T) | Err(error: Error) {
    predicate IsFailure() { Err? }
    function PropagateFailure<U>(): Result<U>
      requires Err?
    {
      Err(error)
    }
    function Extract(): T
      requires Ok?
    {
      value
    }
  }

  /** `require!(condition, error)`. */
  datatype Check = Passed | Failed(error: Error) {
    predicate IsFailure() { Failed? }
    function PropagateFailure<U>(): Result<U>
      requires Failed?
    {
      Err(error)
    }
  }

  function Require(condition: bool, error: Error): Check {
    if condition then Passed else Failed(error)
  }
}
