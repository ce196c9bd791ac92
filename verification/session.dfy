/** The per-connection context and its allocation at accept time (`ConnCtx`,
    `NewServer`, `Accept`). */
module Session {
  import opened Wrappers
  import opened Bytes

  /** An open transaction, seen through the key-value view it reads: the database at
      its read version overlaid with its own uncommitted writes. */
  datatype Tx = Tx(view: map<Bytes, Bytes>)

  /** A tenant subspace opened through the directory layer; only its prefix matters. */
  datatype Subspace = Subspace(prefix: Bytes)

  /** `ConnCtx`: connection id, the open transaction if any, the bound directory if any. */
  datatype ConnCtx = ConnCtx(id: int, transaction: Option<Tx>, directory: Option<Subspace>)

  const MinInt64: int := -0x8000_0000_0000_0000
  const MaxInt64: int := 0x7FFF_FFFF_FFFF_FFFF

  predicate IsInt64(x: int) {
    MinInt64 <= x <= MaxInt64
  }

  /** `atomic.AddInt64`: two's-complement addition that wraps around. */
  function AddInt64(a: int, b: int): (r: int)
    requires IsInt64(a) && IsInt64(b)
    ensures IsInt64(r)
    ensures IsInt64(a + b) ==> r == a + b
    ensures (r - (a + b)) % 0x1_0000_0000_0000_0000 == 0
  {
    (a + b - MinInt64) % 0x1_0000_0000_0000_0000 + MinInt64
  }

  /** The server's connection-id counter. */
  datatype Server = Server(idCounter: int)

  /** `NewServer`: the counter starts at zero. */
  function NewServer(): (s: Server)
    ensures s.idCounter == 0
  {
    Server(0)
  }

  /** What `Accept` produces: the advanced server, the new context, and the verdict
      returned to the listener. */
  datatype Accepted = Accepted(server: Server, ctx: ConnCtx, accept: bool)

  /** `Accept`: bumps the counter, gives the connection the new value as its id, with
      no transaction and no directory, and always accepts. */
  function Accept(s: Server): (r: Accepted)
    requires IsInt64(s.idCounter)
    ensures r.accept
    ensures r.ctx.transaction.None? && r.ctx.directory.None?
    ensures r.ctx.id == r.server.idCounter
    ensures IsInt64(r.server.idCounter)
    ensures s.idCounter < MaxInt64 ==> r.ctx.id == s.idCounter + 1
  {
    var id := AddInt64(s.idCounter, 1);
    Accepted(Server(id), ConnCtx(id, None, None), true)
  }

  /** The ids handed out by `n` accepts in a row, and the server after them. */
  function AcceptMany(s: Server, n: nat): (Server, seq<int>)
    requires IsInt64(s.idCounter)
    decreases n
  {
    if n == 0 then (s, [])
    else
      var a := Accept(s);
      var rest := AcceptMany(a.server, n - 1);
      (rest.0, [a.ctx.id] + rest.1)
  }

  /** Starting from counter `c`, `n` accepts that stay clear of the int64 bound hand
      out `c + 1`, …, `c + n`. */
  lemma {:induction false} AcceptManyCounts(c: int, n: nat)
    requires IsInt64(c) && 0 <= c && c + n <= MaxInt64
    ensures AcceptMany(Server(c), n).1 == seq(n, i => c + 1 + i)
    ensures AcceptMany(Server(c), n).0 == Server(c + n)
    decreases n
  {
    if n > 0 {
      AcceptManyCounts(c + 1, n - 1);
      assert AcceptMany(Server(c), n).1 == [c + 1] + seq(n - 1, i => c + 2 + i);
    }
  }

  /** From `NewServer`, the k-th accept (counting from 1) assigns id k, so the ids are
      strictly increasing and pairwise distinct until the counter reaches the int64 bound. */
  lemma AcceptIdsIncrease(n: nat)
    requires n <= MaxInt64
    ensures |AcceptMany(NewServer(), n).1| == n
    ensures forall k :: 0 <= k < n ==> AcceptMany(NewServer(), n).1[k] == k + 1
    ensures forall j, k :: 0 <= j < k < n ==> AcceptMany(NewServer(), n).1[j] < AcceptMany(NewServer(), n).1[k]
  {
    AcceptManyCounts(0, n);
  }

  /** The accept after the largest id wraps to the smallest int64. */
  lemma AcceptWrapsAtBound()
    ensures Accept(Server(MaxInt64)).ctx.id == MinInt64
  {
  }
}
