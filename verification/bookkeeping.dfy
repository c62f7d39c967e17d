/** The ledger: the ordered list of transactions the bot keeps in memory and
    writes to its store after every change, and the sums computed over it. */
module Bookkeeping {

  /** `Entrada` is money coming in, `Saida` (written "Saída" by the bot)
      money going out. */
  datatype Kind = Entrada | Saida

  /** One recorded transaction: when it was recorded (a locale-formatted
      timestamp, opaque here), its kind, its amount as parsed (the sign is
      kept, nothing forbids a negative amount), a description, and the sender
      id it came from. */
  datatype Transaction = Transaction(data: string, kind: Kind, value: real, desc: string, usuario: string)

  /** Insertion order is chronological and significant. */
  type Ledger = seq<Transaction>

  /** Sum of the `Entrada` amounts. */
  function TotalIn(l: Ledger): real
  {
    if |l| == 0 then 0.0
    else TotalIn(l[..|l| - 1]) + (if l[|l| - 1].kind == Entrada then l[|l| - 1].value else 0.0)
  }

  /** Sum of every amount that is not an `Entrada`. */
  function TotalOut(l: Ledger): real
  {
    if |l| == 0 then 0.0
    else TotalOut(l[..|l| - 1]) + (if l[|l| - 1].kind == Entrada then 0.0 else l[|l| - 1].value)
  }

  /** What one transaction adds to the running balance. */
  function Signed(t: Transaction): real {
    if t.kind == Entrada then t.value else -t.value
  }

  /** The running balance: every amount added with its kind's sign. */
  function Balance(l: Ledger): real
  {
    if |l| == 0 then 0.0 else Balance(l[..|l| - 1]) + Signed(l[|l| - 1])
  }

  /** The signed running balance and the two per-kind totals agree: the
      balance is what came in minus what went out. */
  lemma {:induction false} BalanceIsInMinusOut(l: Ledger)
    ensures Balance(l) == TotalIn(l) - TotalOut(l)
  {
    if |l| > 0 {
      BalanceIsInMinusOut(l[..|l| - 1]);
    }
  }

  /** The totals of a ledger are the totals of any split of it into a front
      and a back, added. */
  lemma {:induction false} TotalsAdd(a: Ledger, b: Ledger)
    ensures TotalIn(a + b) == TotalIn(a) + TotalIn(b)
    ensures TotalOut(a + b) == TotalOut(a) + TotalOut(b)
    ensures Balance(a + b) == Balance(a) + Balance(b)
    decreases |b|
  {
    if |b| == 0 {
      assert a + b == a;
    } else {
      assert (a + b)[..|a + b| - 1] == a + b[..|b| - 1];
      assert (a + b)[|a + b| - 1] == b[|b| - 1];
      TotalsAdd(a, b[..|b| - 1]);
    }
  }

  /** `l.slice(-n)`: the last `n` transactions, or all of them when there are
      fewer; the ledger is what comes before them followed by them. */
  function Last(l: Ledger, n: nat): (r: Ledger)
    ensures |r| == if |l| < n then |l| else n
    ensures l == l[..|l| - |r|] + r
  {
    if |l| < n then l else l[|l| - n..]
  }
}
