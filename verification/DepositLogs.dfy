/** Transfer logs, the recipient filter of `eth_getLogs`, and which logs count as deposits. */
module DepositLogs {
  import opened Prelude

  const ADDRESS_SPACE: nat := 0x1_0000_0000_0000_0000_0000_0000_0000_0000_0000_0000

  type Address = a: nat | a < ADDRESS_SPACE witness 0

  const TRANSFER_TOPIC: nat := 0xddf252ad1be2c89b69c2b068fc378daa952ba7f163c4a11628f55a4df523b3ef

  /** A log; topics are 32-byte words, `data` is absent when it does not parse as an integer. */
  datatype Log = Log(
    txHash: nat,
    index: nat,
    block: int,
    token: Address,
    topics: seq<nat>,
    data: Option<nat>)

  datatype LogKey = LogKey(txHash: nat, index: nat)

  function KeyOf(l: Log): LogKey {
    LogKey(l.txHash, l.index)
  }

  /** The last twenty bytes of a topic word. */
  function AddressOf(topic: nat): Address {
    topic % ADDRESS_SPACE
  }

  /** `eth_getLogs` with `topics: [Transfer, null, recipients]`: the padded recipient word must match exactly. */
  predicate Matches(l: Log, from: int, to: int, recipients: seq<Address>) {
    && from <= l.block <= to
    && |l.topics| >= 3 && l.topics[0] == TRANSFER_TOPIC
    && l.topics[2] < ADDRESS_SPACE && l.topics[2] in recipients
  }

  /** A log that a query can return. */
  predicate IsTransfer(l: Log) {
    |l.topics| >= 3 && l.topics[0] == TRANSFER_TOPIC && l.topics[2] < ADDRESS_SPACE
  }

  function GetLogs(chain: seq<Log>, from: int, to: int, recipients: seq<Address>): seq<Log> {
    if chain == [] then []
    else
      var init := GetLogs(chain[..|chain| - 1], from, to, recipients);
      if Matches(chain[|chain| - 1], from, to, recipients) then init + [chain[|chain| - 1]] else init
  }

  ghost predicate UniqueKeys(chain: seq<Log>) {
    forall i, j :: 0 <= i < j < |chain| ==> KeyOf(chain[i]) != KeyOf(chain[j])
  }

  lemma {:induction false} GetLogsMembers(chain: seq<Log>, from: int, to: int, recipients: seq<Address>)
    ensures forall l :: l in GetLogs(chain, from, to, recipients) <==> l in chain && Matches(l, from, to, recipients)
  {
    if chain != [] {
      GetLogsMembers(chain[..|chain| - 1], from, to, recipients);
    }
  }

  lemma DistinctHalves(a: seq<Address>, b: seq<Address>, x: Address)
    requires Distinct(a + b) && x in a
    ensures x !in b
  {
    var i :| 0 <= i < |a| && a[i] == x;
    assert (a + b)[i] == x;
    forall j | 0 <= j < |b| ensures b[j] != x {
      assert (a + b)[|a| + j] == b[j];
    }
  }

  /** Splitting the recipients into two disjoint batches neither loses nor repeats a log. */
  lemma {:induction false} BatchesAddUp(chain: seq<Log>, from: int, to: int, a: seq<Address>, b: seq<Address>)
    requires Distinct(a + b)
    ensures multiset(GetLogs(chain, from, to, a + b))
      == multiset(GetLogs(chain, from, to, a)) + multiset(GetLogs(chain, from, to, b))
  {
    if chain != [] {
      var l := chain[|chain| - 1];
      BatchesAddUp(chain[..|chain| - 1], from, to, a, b);
      if |l.topics| >= 3 && l.topics[2] in a { DistinctHalves(a, b, l.topics[2]); }
    }
  }

  lemma {:induction false} GetLogsNoRecipients(chain: seq<Log>, from: int, to: int)
    ensures GetLogs(chain, from, to, []) == []
  {
    if chain != [] {
      GetLogsNoRecipients(chain[..|chain| - 1], from, to);
    }
  }

  /** The loop variable of the batching loop after `k` turns. */
  function BatchStart(batchSize: int, k: nat): int {
    k * batchSize
  }

  /** The batching loop over `n` addresses ends exactly when the batch setting is positive or there is nothing to do. */
  lemma BatchLoopEnds(batchSize: int, n: nat)
    ensures (exists k :: BatchStart(batchSize, k) >= n) <==> batchSize >= 1 || n == 0
  {
    assert batchSize >= 1 ==> BatchStart(batchSize, n) >= n;
    assert BatchStart(batchSize, 0) == 0;
    if batchSize <= 0 {
      forall k: nat ensures BatchStart(batchSize, k) <= 0 {}
    }
  }

  /** One query per address batch; the result is the whole span's matching logs, each as often as the chain holds it. */
  method FetchTransferLogs(chain: seq<Log>, from: int, to: int, addresses: seq<Address>, batchSize: int)
    returns (out: seq<Log>)
    requires Distinct(addresses) && (batchSize >= 1 || addresses == [])
    ensures multiset(out) == multiset(GetLogs(chain, from, to, addresses))
  {
    out := [];
    var i := 0;
    GetLogsNoRecipients(chain, from, to);
    while i < |addresses|
      invariant 0 <= i
      invariant multiset(out) == multiset(GetLogs(chain, from, to, addresses[..Min(i, |addresses|)]))
      decreases |addresses| - i
    {
      var end := Min(i + batchSize, |addresses|);
      var batch := addresses[i..end];
      assert addresses[..i] + batch == addresses[..end];
      BatchesAddUp(chain, from, to, addresses[..i], batch);
      out := out + GetLogs(chain, from, to, batch);
      i := i + batchSize;
    }
    assert addresses[..|addresses|] == addresses;
  }

  /** A wallet snapshot: owner by address. */
  type Wallets = map<Address, string>

  /** The tests `processTransferLog` makes before it writes a row. */
  predicate Creditable(l: Log, wallets: Wallets, protocol: set<Address>) {
    && |l.topics| == 3
    && AddressOf(l.topics[2]) in wallets
    && AddressOf(l.topics[1]) !in wallets
    && AddressOf(l.topics[1]) !in protocol
    && l.data.Some? && l.data.value != 0
  }
}
