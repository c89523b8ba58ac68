/** Result codes and small helpers shared by all modules. */
module Core {
  datatype Option<+T> = None | Some(value: T) {
    /** The value, or a default where the C code would treat a null pointer as empty. */
    function GetOr(default: T): T {
      match this
      case Some(v) => v
      case None => default
    }

    function ToSeq(): seq<T> {
      match this
      case Some(v) => [v]
      case None => []
    }
  }

  /** The `mcl_error_t` codes the modelled functions can return; Other stands for every further
      code of the HTTP and security layers. */
  datatype Code =
    | Ok
    | Fail
    | OutOfMemory
    | InvalidParameter
    | TriggeredWithNull
    | LimitExceeded
    | ListIsEmpty
    | BadContentEncoding
    | Sha256CalculationFail
    | JsonNonExistingChild
    | JsonTypeMismatch
    | JsonNameDuplication
    | StoreIsEmpty
    | ItemExceedsMaxHttpRequestSize
    | SignedUrlGenerationFail
    | Other(number: nat)

  datatype Result<+T> = Success(value: T) | Failure(code: Code) {
    predicate IsFailure() {
      Failure?
    }

    /** Total, so that a call that never fails may be followed by the same operator. */
    function PropagateFailure<U>(): Result<U> {
      match this
      case Success(_) => Failure(Code.Ok)
      case Failure(code) => Failure(code)
    }

    function Extract(): T
      requires Success?
    {
      value
    }

    function ErrorCode(): Code {
      match this
      case Success(_) => Ok
      case Failure(code) => code
    }

    function ToOption(): Option<T> {
      match this
      case Success(value) => Some(value)
      case Failure(_) => None
    }
  }

  /** A code from outside the exchange: those the exchange itself gives a meaning to are not among them. */
  type Answer = c: Code | IsAnswer(c) witness Ok

  predicate IsAnswer(c: Code) {
    c != StoreIsEmpty && c != ItemExceedsMaxHttpRequestSize
  }

  /** Something that has to be had from elsewhere, or why it could not be: for want of memory, or with
      the other library's own error. */
  type Obtained<+T> = r: Result<T> | r.Failure? ==> r.code != Ok && IsAnswer(r.code) witness Failure(Fail)

  function Obtain<T>(code: Answer, value: T): Obtained<T> {
    if code == Ok then Success(value) else Failure(code)
  }

  lemma Associate<T>(x: seq<T>, y: seq<T>, z: seq<T>)
    ensures x + (y + z) == (x + y) + z
  {
  }

  lemma InitAndLast<T>(s: seq<T>)
    requires s != []
    ensures s == s[..|s| - 1] + [s[|s| - 1]]
  {
  }

  lemma HeadAndTail<T>(s: seq<T>)
    requires s != []
    ensures s == [s[0]] + s[1..] && (|s| == 1 ==> s == [s[0]])
  {
  }

  function Min(a: nat, b: nat): nat {
    if a < b then a else b
  }
}
