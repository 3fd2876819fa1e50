/** Values shared by every layer: bytes, optional values and the client's exceptions. */
module Core {

  type byte = x: int | 0 <= x < 256

  /** Python `bytes`; text is modelled by its UTF-8 encoding. */
  type Bytes = seq<byte>

  datatype Option<+T> = None | Some(value: T)

  /**
   * The exceptions that can leave a call. `Timeout` is a subclass of
   * `ConnectionLost` in the source, see `IsConnectionError`. `Interrupted`
   * stands for an exception from outside the library, such as Ctrl-C, that
   * arrives before a blocking operation starts.
   */
  datatype Error =
    | ConnectionLost
    | Timeout
    | Corrupted
    | Protocol(code: nat)
    | SizeOverflow
    | ShardIndex
    | InvalidValue
    | PoolClosed
    | QueueEmpty
    | Interrupted
  {
    predicate IsConnectionError() {
      ConnectionLost? || Timeout?
    }
  }

  datatype Result<+T> = Ok(value: T) | Err(error: Error) {
    predicate IsFailure() {
      Err?
    }

    function PropagateFailure<U>(): Result<U>
      requires Err?
    {
      Err(error)
    }

    function Extract(): T
      requires Ok?
    {
      value
    }
  }

  /** A request payload and whether it may be sent twice. */
  datatype Command = Command(payload: Bytes, readOnly: bool)

  lemma Reassociate<T>(a: seq<T>, b: seq<T>, c: seq<T>)
    ensures a + (b + c) == a + b + c
  {
  }

  lemma EmptyIsNeutral<T>(a: seq<T>)
    ensures a + [] == a == [] + a
  {
  }

  /**
   * Definitions of the form `forall k: nat | Unfold(k) :: P` mean just `P`. The
   * verifier leaves them folded except in proofs that say `assert Unfold(0)`.
   */
  predicate Unfold(k: nat) {
    true
  }

  /** What the conditions of contracts are about. */
  datatype Topic = Links | Logs | Flags | Rests | Calls | Servers | Looks | Spending
                 | Attempting | Losing | Recovering | Redialling | Ending | Concluding

  /** The same for conditions, topic by topic, so that deciding one of them does not unfold the others. */
  predicate UnfoldOn(topic: Topic, k: nat) {
    true
  }
}
