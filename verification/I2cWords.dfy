/** The words that travel to the DATA_CMD register of the I2C controller. */
module I2cWords {
  import opened Common

  const CMD_FLAG: nat := 0x100 // bit 8: read command
  const STOP_FLAG: nat := 0x200 // bit 9: STOP after this word

  predicate HasCmd(word: nat) {
    word / CMD_FLAG % 2 == 1
  }

  predicate HasStop(word: nat) {
    word / STOP_FLAG % 2 == 1
  }

  function Data(word: nat): byte {
    word % 0x100
  }

  /** What a whole write of `data` puts on the wire. */
  function EncodeWrite(data: seq<byte>, noStop: bool): (words: seq<nat>)
    ensures |words| == |data|
  {
    if data == [] then []
    else
      [data[0] + if |data| == 1 && !noStop then STOP_FLAG else 0] + EncodeWrite(data[1..], noStop)
  }

  /** What a whole read of `n` bytes puts on the wire. */
  function EncodeRead(n: nat, noStop: bool): (words: seq<nat>)
    ensures |words| == n
  {
    if n == 0 then []
    else [CMD_FLAG + if n == 1 && !noStop then STOP_FLAG else 0] + EncodeRead(n - 1, noStop)
  }

  /** The word that `i2c_write_fifo` writes for byte `i`. */
  lemma {:induction false} EncodeWriteAt(data: seq<byte>, noStop: bool, i: nat)
    requires i < |data|
    ensures EncodeWrite(data, noStop)[i]
            == data[i] + if i == |data| - 1 && !noStop then STOP_FLAG else 0
  {
    if i > 0 {
      EncodeWriteAt(data[1..], noStop, i - 1);
    }
  }

  lemma {:induction false} EncodeReadAt(n: nat, noStop: bool, i: nat)
    requires i < n
    ensures EncodeRead(n, noStop)[i] == CMD_FLAG + if i == n - 1 && !noStop then STOP_FLAG else 0
  {
    if i > 0 {
      EncodeReadAt(n - 1, noStop, i - 1);
    }
  }

  /** A write carries the caller's bytes in order, no read command, and STOP exactly on the
      last word, and there only when it was not suppressed. */
  lemma EncodeWriteMeaning(data: seq<byte>, noStop: bool, i: nat)
    requires i < |data|
    ensures Data(EncodeWrite(data, noStop)[i]) == data[i]
    ensures !HasCmd(EncodeWrite(data, noStop)[i])
    ensures HasStop(EncodeWrite(data, noStop)[i]) <==> i == |data| - 1 && !noStop
  {
    EncodeWriteAt(data, noStop, i);
  }

  /** A read carries only read commands, with STOP on the last in the same way. */
  lemma EncodeReadMeaning(n: nat, noStop: bool, i: nat)
    requires i < n
    ensures HasCmd(EncodeRead(n, noStop)[i])
    ensures HasStop(EncodeRead(n, noStop)[i]) <==> i == n - 1 && !noStop
  {
    EncodeReadAt(n, noStop, i);
  }

  /** A later push call sees only a suffix of the buffer, yet continues the same encoding. */
  lemma {:induction false} EncodeWriteSuffix(data: seq<byte>, noStop: bool, p: nat)
    requires p <= |data|
    ensures EncodeWrite(data[p..], noStop) == EncodeWrite(data, noStop)[p..]
  {
    if p > 0 {
      EncodeWriteSuffix(data[1..], noStop, p - 1);
      assert data[1..][p - 1..] == data[p..];
    }
  }

  lemma {:induction false} EncodeReadSuffix(n: nat, noStop: bool, p: nat)
    requires p <= n
    ensures EncodeRead(n - p, noStop) == EncodeRead(n, noStop)[p..]
  {
    if p > 0 {
      EncodeReadSuffix(n - 1, noStop, p - 1);
    }
  }

  /** How many of these words are read commands: each makes the controller fetch one byte. */
  function Reads(words: seq<nat>): (count: nat)
    ensures count <= |words|
  {
    if words == [] then 0
    else
      var last := |words| - 1;
      Reads(words[..last]) + if HasCmd(words[last]) then 1 else 0
  }

  lemma {:induction false} ReadsOfWrite(data: seq<byte>, noStop: bool, k: nat)
    requires k <= |data|
    ensures Reads(EncodeWrite(data, noStop)[..k]) == 0
  {
    if k > 0 {
      var words := EncodeWrite(data, noStop);
      assert words[..k][..k - 1] == words[..k - 1];
      ReadsOfWrite(data, noStop, k - 1);
      EncodeWriteMeaning(data, noStop, k - 1);
    }
  }

  lemma {:induction false} ReadsOfRead(n: nat, noStop: bool, k: nat)
    requires k <= n
    ensures Reads(EncodeRead(n, noStop)[..k]) == k
  {
    if k > 0 {
      var words := EncodeRead(n, noStop);
      assert words[..k][..k - 1] == words[..k - 1];
      ReadsOfRead(n, noStop, k - 1);
      EncodeReadMeaning(n, noStop, k - 1);
    }
  }
}
