/** keybytesToHex: bytes to terminated nibble keys. */
module TrieKeys {
  import opened TrieNodes

  function Hex(key: Bytes): (nibbles: Nibbles)
    ensures |nibbles| == 2 * |key| + 1
  {
    if key == [] then [TERMINATOR]
    else [(key[0] / 16) as nat, (key[0] % 16) as nat] + Hex(key[1..])
  }

  /** The loop form: a slice of the final length is filled in place. */
  method KeybytesToHex(str: Bytes) returns (nibbles: Nibbles)
    ensures nibbles == Hex(str)
  {
    var l := |str| * 2 + 1;
    var buf := new nat[l](_ => 0);
    for i := 0 to |str|
      invariant forall j :: 0 <= j < i ==> buf[2 * j] == str[j] / 16 && buf[2 * j + 1] == str[j] % 16
    {
      buf[i * 2] := str[i] / 16;
      buf[i * 2 + 1] := str[i] % 16;
    }
    buf[l - 1] := TERMINATOR;
    nibbles := buf[..];
    forall j | 0 <= j < l ensures nibbles[j] == Hex(str)[j] {
      HexAt(str, j);
      if j < l - 1 { assert j == 2 * (j / 2) || j == 2 * (j / 2) + 1; }
    }
  }

  lemma {:induction false} HexAt(key: Bytes, j: nat)
    requires j <= 2 * |key|
    ensures Hex(key)[j] == if j == 2 * |key| then TERMINATOR else if j % 2 ==
      0 then key[j / 2] / 16 else key[j / 2] % 16
  {
    if key != [] && j >= 2 {
      HexAt(key[1..], j - 2);
      var i := j / 2;
      assert (j - 2) / 2 == i - 1 && (j - 2) % 2 == j % 2;
      assert Hex(key)[j] == Hex(key[1..])[j - 2];
      if j < 2 * |key| { assert key[1..][i - 1] == key[i]; }
    } else if key != [] {
      assert j / 2 == 0;
    }
  }

  lemma HexTerminated(key: Bytes)
    ensures Terminated(Hex(key)) && AllNibbles(Hex(key)[..2 * |key|])
  {
    forall j | 0 <= j < 2 * |key| ensures Hex(key)[j] < TERMINATOR { HexAt(key, j); }
    HexAt(key, 2 * |key|);
  }

  /** Prefixes of byte keys and of hex keys are the same thing. */
  lemma {:induction false} HexPrefix(prefix: Bytes, key: Bytes)
    ensures Hex(prefix)[..2 * |prefix|] <= Hex(key) <==> prefix <= key
  {
    if prefix != [] {
      var p, k := Hex(prefix)[..2 * |prefix|], Hex(key);
      if key == [] {
        HexTerminated(prefix);
      } else {
        HexPrefix(prefix[1..], key[1..]);
        assert p == [p[0], p[1]] + Hex(prefix[1..])[..2 * |prefix[1..]|];
        assert p <= k <==> p[0] == k[0] && p[1] == k[1] && p[2..] <= k[2..];
        assert prefix <= key <==> prefix[0] == key[0] && prefix[1..] <= key[1..];
        NibblePair(prefix[0], key[0]);
      }
    }
  }

  lemma NibblePair(a: byte, b: byte)
    ensures a / 16 == b / 16 && a % 16 == b % 16 <==> a == b
  {
  }

  lemma HexInjective(a: Bytes, b: Bytes)
    requires Hex(a) == Hex(b)
    ensures a == b
  {
    HexPrefix(a, b);
  }

  /** Terminated keys of odd length are the hex forms of byte keys. */
  lemma {:induction false} Unhex(nibbles: Nibbles) returns (key: Bytes)
    requires Terminated(nibbles) && |nibbles| % 2 == 1
    ensures Hex(key) == nibbles
  {
    if |nibbles| == 1 {
      key := [];
    } else {
      assert nibbles[0] == nibbles[..|nibbles| - 1][0] && nibbles[1] == nibbles[..|nibbles| - 1][1];
      var rest := nibbles[2..];
      assert forall i :: 0 <= i < |rest| - 1 ==> rest[i] == nibbles[..|nibbles| - 1][i + 2];
      var tail := Unhex(rest);
      key := [(nibbles[0] * 16 + nibbles[1]) as byte] + tail;
      assert key[1..] == tail;
    }
  }
}
