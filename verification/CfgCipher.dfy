/** The RC4 stream and the strong envelope of profiles: firmware/cfgfmt.py. */
module CfgCipher {
  import opened Bytes

  // ----- The cipher as a function of its state -----

  datatype State = State(s: seq<byte>, i: byte, j: byte)

  type Box = s: seq<byte> | |s| == 256 witness Identity()

  function Identity(): (s: seq<byte>)
    ensures |s| == 256
  {
    seq(256, i requires 0 <= i < 256 => i as byte)
  }

  function Exchanged(s: Box, i: byte, j: byte): Box {
    s[i := s[j]][j := s[i]]
  }

  /** The box holds every byte once. */
  ghost predicate Permutation(s: seq<byte>) {
    |s| == 256 && multiset(s) == multiset(Identity())
  }

  /** The box and `j` after `n` rounds of key setup; an empty key counts as one zero byte. */
  function Scheduled(key: seq<byte>, n: nat): (Box, byte)
    requires n <= 256 && key != []
  {
    if n == 0 then (Identity(), 0)
    else
      var (s, j) := Scheduled(key, n - 1);
      var k := (key[(n - 1) % |key|] + s[n - 1] + j) % 256;
      (Exchanged(s, n - 1, k), k)
  }

  function EffectiveKey(key: seq<byte>): (k: seq<byte>)
    ensures k != []
  {
    if key == [] then [0] else key
  }

  /** A fresh stream for a key. */
  function Fresh(key: seq<byte>): (st: State)
    ensures |st.s| == 256
  {
    State(Scheduled(EffectiveKey(key), 256).0, 0, 0)
  }

  /** One step of the generator, before its byte is used. */
  function Next(st: State): (r: State)
    requires |st.s| == 256
    ensures |r.s| == 256
  {
    var i := (st.i + 1) % 256;
    var j := (st.s[i] + st.j) % 256;
    State(Exchanged(st.s, i, j), i, j)
  }

  function After(st: State, n: nat): (r: State)
    requires |st.s| == 256
    ensures |r.s| == 256
  {
    if n == 0 then st else Next(After(st, n - 1))
  }

  /** The byte that the generator gives in a state it has stepped to. */
  function KeyByte(st: State): byte
    requires |st.s| == 256
  {
    st.s[(st.s[st.i] as int + st.s[st.j]) % 256]
  }

  function Crypted(st: State, data: seq<byte>): (out: seq<byte>)
    requires |st.s| == 256
    ensures |out| == |data|
  {
    if data == [] then []
    else
      var n := |data| - 1;
      Crypted(st, data[..n]) + [XorByte(data[n], KeyByte(After(st, n + 1)))]
  }

  // ----- The cipher as it runs -----

  /** `_ksa_from_key_bytes`. */
  method KeySetup(key: seq<byte>) returns (s: array<byte>)
    ensures fresh(s) && s[..] == Scheduled(EffectiveKey(key), 256).0
  {
    s := new byte[256](i requires 0 <= i < 256 => i as byte);
    assert s[..] == Identity();
    ghost var before := s[..];
    var bytes := if key == [] then [0] else key;
    var j: byte, ki := 0, 0;
    for i := 0 to 256
      invariant (s[..], j) == Scheduled(bytes, i)
      invariant ki == i % |bytes|
    {
      before := s[..];
      j := (bytes[ki] + s[i] + j) % 256;
      s[i], s[j] := s[j], s[i];
      assert s[..] == Exchanged(before, i, j);
      NextIndex(i, |bytes|);
      ki := (ki + 1) % |bytes|;
    }
  }

  lemma NextIndex(i: nat, n: nat)
    requires n > 0
    ensures (i % n + 1) % n == (i + 1) % n
  {
    var q, r := i / n, i % n;
    if r + 1 == n {
      Exact(i + 1, q + 1, n, 0);
      Exact(n, 1, n, 0);
    } else {
      Exact(i + 1, q, n, r + 1);
      Exact(r + 1, 0, n, r + 1);
    }
  }

  /** Quotient and remainder are unique. */
  lemma Exact(a: int, q: int, n: nat, r: nat)
    requires n > 0 && a == q * n + r && r < n
    ensures a % n == r
  {
    var d := a / n;
    assert (q - d) * n == a % n - r;
    Multiples(q - d, n);
  }

  lemma Multiples(k: int, n: int)
    requires n > 0
    ensures k >= 1 ==> k * n >= n
    ensures k <= -1 ==> k * n <= -n
    ensures k == 0 ==> k * n == 0
  {
  }

  /** `RC4`: the box and the two indices change in place. */
  class Rc4 {
    const s: array<byte>
    var i: byte
    var j: byte

    ghost predicate Valid()
      reads this
    {
      s.Length == 256
    }

    ghost function Now(): (st: State)
      reads this, s
      requires Valid()
      ensures |st.s| == 256
    {
      State(s[..], i, j)
    }

    constructor (sbox: array<byte>)
      requires sbox.Length == 256
      ensures Valid() && fresh(s) && Now() == State(sbox[..], 0, 0)
    {
      s := new byte[256](k requires 0 <= k < sbox.Length reads sbox => sbox[k]);
      i, j := 0, 0;
      new;
      assert s[..] == sbox[..];
    }

    method Crypt(data: seq<byte>) returns (out: seq<byte>)
      requires Valid()
      modifies this, s
      ensures Valid() && out == Crypted(old(Now()), data) && Now() == After(old(Now()), |data|)
    {
      hide XorByte, Next, Exchanged;
      out := [];
      ghost var start := Now();
      for k := 0 to |data|
        invariant Valid() && Now() == After(start, k) && out == Crypted(start, data[..k])
      {
        ghost var before := Now();
        i := (i + 1) % 256;
        j := (s[i] + j) % 256;
        s[i], s[j] := s[j], s[i];
        Stepped(before, Now());
        assert data[..k + 1][..k] == data[..k];
        out := out + [XorByte(data[k], s[(s[i] as int + s[j]) % 256])];
      }
      assert data[..|data|] == data;
    }
  }

  /** `RC4.from_bytes`. */
  method FromBytes(key: seq<byte>) returns (rc4: Rc4)
    ensures fresh(rc4) && fresh(rc4.s) && rc4.Valid() && rc4.Now() == Fresh(key)
  {
    var sbox := KeySetup(key);
    rc4 := new Rc4(sbox);
  }

  lemma Stepped(before: State, now: State)
    requires |before.s| == 256 == |now.s|
    requires now.i == (before.i + 1) % 256 && now.j == (before.s[now.i] + before.j) % 256
    requires now.s == before.s[now.i := before.s[now.j]][now.j := before.s[now.i]]
    ensures now == Next(before)
  {
  }

  // ----- Laws -----

  lemma SwapKeeps(s: Box, i: byte, j: byte)
    requires Permutation(s)
    ensures Permutation(Exchanged(s, i, j))
  {
  }

  /** Key setup leaves a permutation, for every key. */
  lemma {:induction false} ScheduledPermutes(key: seq<byte>, n: nat)
    requires n <= 256 && key != []
    ensures Permutation(Scheduled(key, n).0)
  {
    if n > 0 {
      ScheduledPermutes(key, n - 1);
      var (s, j) := Scheduled(key, n - 1);
      SwapKeeps(s, n - 1, (key[(n - 1) % |key|] + s[n - 1] + j) % 256);
    }
  }

  /** So does every step of every stream. */
  lemma {:induction false} StreamPermutes(key: seq<byte>, n: nat)
    ensures Permutation(After(Fresh(key), n).s)
  {
    hide Scheduled, Exchanged, EffectiveKey, Permutation;
    if n == 0 {
      ScheduledPermutes(EffectiveKey(key), 256);
    } else {
      StreamPermutes(key, n - 1);
      var st := After(Fresh(key), n - 1);
      var i := (st.i + 1) % 256;
      SwapKeeps(st.s, i, (st.s[i] + st.j) % 256);
    }
  }

  lemma {:induction false} AfterAdds(st: State, m: nat, n: nat)
    requires |st.s| == 256
    ensures After(After(st, m), n) == After(st, m + n)
  {
    hide Next;
    if n > 0 {
      AfterAdds(st, m, n - 1);
    }
  }

  /** Encrypting in pieces is encrypting at once. */
  lemma {:induction false} CryptSplits(st: State, a: seq<byte>, b: seq<byte>)
    requires |st.s| == 256
    ensures Crypted(st, a + b) == Crypted(st, a) + Crypted(After(st, |a|), b)
  {
    hide XorByte, KeyByte, After;
    if b == [] {
      assert a + b == a;
    } else {
      var n := |b| - 1;
      CryptSplits(st, a, b[..n]);
      assert (a + b)[..|a| + n] == a + b[..n];
      AfterAdds(st, |a|, n + 1);
    }
  }

  /** A second pass from an equal state restores the data. */
  lemma {:induction false} CryptRestores(st: State, data: seq<byte>)
    requires |st.s| == 256
    ensures Crypted(st, Crypted(st, data)) == data
  {
    hide KeyByte, After;
    if data != [] {
      var n := |data| - 1;
      CryptRestores(st, data[..n]);
      var out := Crypted(st, data);
      assert out[..n] == Crypted(st, data[..n]);
      XorCancels(data[n], KeyByte(After(st, n + 1)));
    }
  }

  // ----- The strong envelope -----

  /** `bytes(b ^ mask[i & 7] ...)`. */
  function Masked(data: seq<byte>, mask: seq<byte>): (r: seq<byte>)
    requires |mask| == 8
    ensures |r| == |data|
  {
    seq(|data|, i requires 0 <= i < |data| => XorByte(data[i], mask[i % 8]))
  }

  /** The end of `_write_one_file` for the strong pass. */
  function Envelope(key: seq<byte>, nonce: seq<byte>, plain: seq<byte>): seq<byte>
    requires |nonce| == 8
  {
    Crypted(Fresh(key), Masked(plain, nonce) + nonce)
  }

  /** The strong decrypt path of `main`, on input that is long enough. */
  function Opened(key: seq<byte>, raw: seq<byte>): seq<byte>
    requires |raw| >= 8
  {
    var body := Crypted(Fresh(key), raw);
    var n := |body| - 8;
    Masked(body[..n], body[n..])
  }

  /** The envelope opens to its plain text, for every key, nonce and text. */
  lemma EnvelopeOpens(key: seq<byte>, nonce: seq<byte>, plain: seq<byte>)
    requires |nonce| == 8
    ensures |Envelope(key, nonce, plain)| == |plain| + 8
    ensures Opened(key, Envelope(key, nonce, plain)) == plain
  {
    hide Crypted, Fresh;
    CryptRestores(Fresh(key), Masked(plain, nonce) + nonce);
    var body := Masked(plain, nonce) + nonce;
    assert body[..|plain|] == Masked(plain, nonce) && body[|plain|..] == nonce;
    MaskTwice(plain, nonce);
  }

  lemma MaskTwice(data: seq<byte>, mask: seq<byte>)
    requires |mask| == 8
    ensures Masked(Masked(data, mask), mask) == data
  {
    forall i | 0 <= i < |data|
      ensures Masked(Masked(data, mask), mask)[i] == data[i]
    {
      XorCancels(data[i], mask[i % 8]);
    }
  }

  /** The byte that the fresh stream of a key gives at position `k`. */
  function KeyByteAt(key: seq<byte>, k: nat): byte {
    KeyByte(After(Fresh(key), k + 1))
  }

  lemma {:induction false} CryptedAt(st: State, data: seq<byte>, k: nat)
    requires |st.s| == 256 && k < |data|
    ensures Crypted(st, data)[k] == XorByte(data[k], KeyByte(After(st, k + 1)))
  {
    hide XorByte, KeyByte, After;
    if k < |data| - 1 {
      CryptedAt(st, data[..|data| - 1], k);
    }
  }

  lemma XorSolves(a: byte, x: byte, b: byte)
    ensures XorByte(a, x) == b <==> x == XorByte(a, b)
  {
    XorLaws(a, x);
    XorLaws(a, b);
    XorCancels(x, a);
    XorCancels(b, a);
    XorLaws(Xor(a, x), a);
  }

  /** An encrypted string begins with `target` exactly when each key byte turns the text's byte into it. */
  lemma CryptedStarts(key: seq<byte>, data: seq<byte>, target: seq<byte>)
    requires |target| <= |data|
    ensures Crypted(Fresh(key), data)[..|target|] == target <==>
      forall k :: 0 <= k < |target| ==> KeyByteAt(key, k) == XorByte(data[k], target[k])
  {
    hide XorByte, Crypted, KeyByte, After, Fresh;
    var out := Crypted(Fresh(key), data);
    forall k | 0 <= k < |target|
      ensures out[k] == target[k] <==> KeyByteAt(key, k) == XorByte(data[k], target[k])
    {
      CryptedAt(Fresh(key), data, k);
      XorSolves(data[k], KeyByteAt(key, k), target[k]);
    }
    assert forall k :: 0 <= k < |target| ==> out[..|target|][k] == out[k];
  }

  /** The start of the only nonces whose envelope begins with `target`. */
  function NonceFor(key: seq<byte>, plain: seq<byte>, target: seq<byte>): (n: seq<byte>)
    requires |target| <= |plain|
    ensures |n| == |target|
  {
    seq(|target|, k requires 0 <= k < |target| => XorByte(plain[k], XorByte(KeyByteAt(key, k), target[k])))
  }

  /** An envelope begins with `target`, of at most eight bytes, exactly under the nonces that begin so. */
  lemma EnvelopeStarts(key: seq<byte>, nonce: seq<byte>, plain: seq<byte>, target: seq<byte>)
    requires |nonce| == 8 && |target| <= 8 && |target| <= |plain|
    ensures Envelope(key, nonce, plain)[..|target|] == target <==> nonce[..|target|] == NonceFor(key, plain, target)
  {
    hide XorByte, Crypted, KeyByteAt, Fresh;
    var masked := Masked(plain, nonce) + nonce;
    CryptedStarts(key, masked, target);
    forall k | 0 <= k < |target|
      ensures KeyByteAt(key, k) == XorByte(masked[k], target[k]) <==> nonce[k] == NonceFor(key, plain, target)[k]
    {
      assert masked[k] == XorByte(plain[k], nonce[k]);
      MaskSolves(plain[k], nonce[k], target[k], KeyByteAt(key, k));
    }
    assert forall k :: 0 <= k < |target| ==> nonce[..|target|][k] == nonce[k];
  }

  lemma MaskSolves(a: byte, m: byte, b: byte, x: byte)
    ensures x == XorByte(XorByte(a, m), b) <==> m == XorByte(a, XorByte(x, b))
  {
    hide Xor;
    XorCancels(XorByte(a, m), b);
    XorCancels(x, b);
    XorSolves(a, m, XorByte(x, b));
  }

  // ----- The setup as a trace -----

  /** Box `b` is `a` with the bytes at two places exchanged. */
  ghost predicate ExchangesAt(a: seq<byte>, b: seq<byte>, x: int, y: int) {
    && |a| == |b| == 256 && 0 <= x < 256 && 0 <= y < 256
    && forall p :: 0 <= p < 256 ==> b[p] == if p == x then a[y] else if p == y then a[x] else a[p]
  }

  /** The index `y` is `x` moved on by two bytes, modulo 256. */
  ghost predicate Advances(x: int, y: int, a: int, b: int) {
    (y - x - a - b) % 256 == 0
  }

  /**
   A run of the published key setup: from the ascending box and index 0, round `i` adds the box's byte
   `i` and the key's byte `i`, cyclically, to the index and exchanges the bytes at `i` and the index.
   */
  ghost predicate SetupRun(key: seq<byte>, boxes: seq<seq<byte>>, indices: seq<byte>, n: nat)
    requires key != []
  {
    && |boxes| == |indices| == n + 1 && n <= 256
    && indices[0] == 0 && |boxes[0]| == 256 && (forall p :: 0 <= p < 256 ==> boxes[0][p] == p)
    && forall i :: 0 <= i < n ==>
      && ExchangesAt(boxes[i], boxes[i + 1], i, indices[i + 1])
      && Advances(indices[i], indices[i + 1], boxes[i][i], key[i % |key|])
  }

  /** Every such run ends with the scheduled box and index. */
  lemma {:induction false} SetupEnds(key: seq<byte>, boxes: seq<seq<byte>>, indices: seq<byte>, n: nat)
    requires key != [] && SetupRun(key, boxes, indices, n)
    ensures boxes[n] == Scheduled(key, n).0 && indices[n] == Scheduled(key, n).1
  {
    hide Scheduled, ExchangesAt, Advances;
    if n == 0 {
      FirstBox(key, boxes[0], indices[0]);
    } else {
      SetupEnds(key, boxes[..n], indices[..n], n - 1);
      assert boxes[..n][n - 1] == boxes[n - 1] && indices[..n][n - 1] == indices[n - 1];
      assert ExchangesAt(boxes[n - 1], boxes[n - 1 + 1], n - 1, indices[n - 1 + 1]);
      RoundIs(key, boxes[n - 1], indices[n - 1], boxes[n], indices[n], n);
    }
  }

  lemma FirstBox(key: seq<byte>, box: seq<byte>, index: byte)
    requires key != [] && index == 0 && |box| == 256 && forall p :: 0 <= p < 256 ==> box[p] == p
    ensures (box, index) == Scheduled(key, 0)
  {
    assert box == Identity();
  }

  lemma RoundIs(key: seq<byte>, a: seq<byte>, x: byte, b: seq<byte>, y: byte, n: nat)
    requires key != [] && 0 < n <= 256 && (a, x) == Scheduled(key, n - 1)
    requires ExchangesAt(a, b, n - 1, y) && Advances(x, y, a[n - 1], key[(n - 1) % |key|])
    ensures (b, y) == Scheduled(key, n)
  {
    hide Exchanged, ExchangesAt;
    IndexStep(y, x as int + a[n - 1] + key[(n - 1) % |key|]);
    SwapIs(a, b, n - 1, y);
  }

  lemma IndexStep(x: byte, sum: int)
    requires (x - sum) % 256 == 0
    ensures x == sum % 256
  {
    assert sum == (sum / 256) * 256 + sum % 256;
    var q := (x - sum) / 256;
    assert x - sum == q * 256;
  }

  lemma SwapIs(a: Box, b: seq<byte>, x: byte, y: byte)
    requires ExchangesAt(a, b, x, y)
    ensures b == Exchanged(a, x, y)
  {
  }

  /** There is such a run for every key, so the setup computes exactly what the runs do. */
  lemma {:induction false} SetupExists(key: seq<byte>, n: nat) returns (boxes: seq<seq<byte>>, indices: seq<byte>)
    requires key != [] && n <= 256
    ensures SetupRun(key, boxes, indices, n)
    ensures boxes[n] == Scheduled(key, n).0 && indices[n] == Scheduled(key, n).1
  {
    if n == 0 {
      boxes, indices := [Identity()], [0];
    } else {
      boxes, indices := SetupExists(key, n - 1);
      var (s, j) := Scheduled(key, n);
      var was, from := boxes, indices;
      boxes, indices := boxes + [s], indices + [j];
      LongerRun(key, was, from, s, j, n);
    }
  }

  lemma LongerRun(key: seq<byte>, boxes: seq<seq<byte>>, indices: seq<byte>, s: Box, j: byte, n: nat)
    requires key != [] && 0 < n <= 256 && SetupRun(key, boxes, indices, n - 1)
    requires boxes[n - 1] == Scheduled(key, n - 1).0 && indices[n - 1] == Scheduled(key, n - 1).1
    requires (s, j) == Scheduled(key, n)
    ensures SetupRun(key, boxes + [s], indices + [j], n)
  {
    hide Scheduled, Exchanged, ExchangesAt, Advances;
    var more, all := boxes + [s], indices + [j];
    LastRound(key, boxes[n - 1], indices[n - 1], s, j, n);
    forall i | 0 <= i < n
      ensures ExchangesAt(more[i], more[i + 1], i, all[i + 1])
      ensures |more[i]| == 256 && Advances(all[i], all[i + 1], more[i][i], key[i % |key|])
    {
      if i < n - 1 {
        assert more[i] == boxes[i] && more[i + 1] == boxes[i + 1];
        assert all[i] == indices[i] && all[i + 1] == indices[i + 1];
        assert ExchangesAt(boxes[i], boxes[i + 1], i, indices[i + 1]);
        BoxSized(boxes[i], boxes[i + 1], i, indices[i + 1]);
      }
    }
  }

  lemma BoxSized(a: seq<byte>, b: seq<byte>, x: int, y: int)
    requires ExchangesAt(a, b, x, y)
    ensures |a| == |b| == 256
  {
  }

  lemma LastRound(key: seq<byte>, before: seq<byte>, index: byte, s: Box, j: byte, n: nat)
    requires key != [] && 0 < n <= 256 && (before, index) == Scheduled(key, n - 1) && (s, j) == Scheduled(key, n)
    ensures ExchangesAt(before, s, n - 1, j)
    ensures Advances(index, j, before[n - 1], key[(n - 1) % |key|])
  {
    var sum: int := key[(n - 1) % |key|] + before[n - 1] + index;
    assert sum == (sum / 256) * 256 + sum % 256;
    assert j - sum == -(sum / 256) * 256;
    Multiple(-(sum / 256));
  }

  lemma Multiple(q: int)
    ensures q * 256 % 256 == 0
  {
  }

  /** The setups go through the same boxes and indices for `n` rounds. */
  ghost predicate SameSetups(a: seq<byte>, b: seq<byte>, n: nat)
    requires a != [] && b != [] && n <= 256
  {
    forall i :: 0 <= i <= n ==> Scheduled(a, i) == Scheduled(b, i)
  }

  /** The first `n` bytes of the keys, taken cyclically, are the same. */
  predicate SameBytes(a: seq<byte>, b: seq<byte>, n: nat)
    requires a != [] && b != []
  {
    forall i :: 0 <= i < n ==> a[i % |a|] == b[i % |b|]
  }

  /**
   No byte of a key is ignored: two keys lead through the same boxes and indices for `n` rounds exactly
   when their first `n` bytes, taken cyclically, are the same.
   */
  lemma {:induction false} SetupTellsKeys(a: seq<byte>, b: seq<byte>, n: nat)
    requires a != [] && b != [] && n <= 256
    ensures SameSetups(a, b, n) <==> SameBytes(a, b, n)
  {
    hide Scheduled, SameSetups, SameBytes;
    if n == 0 {
      StartsAlike(a, b);
    } else {
      SetupTellsKeys(a, b, n - 1);
      OneMoreRound(a, b, n);
      if Scheduled(a, n - 1) == Scheduled(b, n - 1) {
        RoundTells(a, b, n);
      }
    }
  }

  lemma OneMoreRound(a: seq<byte>, b: seq<byte>, n: nat)
    requires a != [] && b != [] && 0 < n <= 256
    ensures SameSetups(a, b, n) <==> SameSetups(a, b, n - 1) && Scheduled(a, n) == Scheduled(b, n)
    ensures SameSetups(a, b, n - 1) ==> Scheduled(a, n - 1) == Scheduled(b, n - 1)
    ensures SameBytes(a, b, n) <==> SameBytes(a, b, n - 1) && a[(n - 1) % |a|] == b[(n - 1) % |b|]
  {
    hide Scheduled;
  }

  lemma StartsAlike(a: seq<byte>, b: seq<byte>)
    requires a != [] && b != []
    ensures SameSetups(a, b, 0) && SameBytes(a, b, 0)
  {
  }

  lemma RoundTells(a: seq<byte>, b: seq<byte>, n: nat)
    requires a != [] && b != [] && 0 < n <= 256 && Scheduled(a, n - 1) == Scheduled(b, n - 1)
    ensures Scheduled(a, n) == Scheduled(b, n) <==> a[(n - 1) % |a|] == b[(n - 1) % |b|]
  {
    hide Exchanged;
    var (s, j) := Scheduled(a, n - 1);
    SameIndex(a[(n - 1) % |a|], b[(n - 1) % |b|], s[n - 1] + j);
  }

  lemma SameIndex(x: byte, y: byte, sum: int)
    ensures (x + sum) % 256 == (y + sum) % 256 ==> x == y
  {
    assert x + sum == ((x + sum) / 256) * 256 + (x + sum) % 256;
    assert y + sum == ((y + sum) / 256) * 256 + (y + sum) % 256;
  }

  /**
   The published generator: the first index counts, the second adds the box's byte there, the two bytes
   are exchanged, and the byte given is the one at their sum.
   */
  lemma GeneratorStep(st: State)
    requires |st.s| == 256
    ensures var t := Next(st);
      && Advances(st.i, t.i, 1, 0) && Advances(st.j, t.j, st.s[t.i], 0)
      && ExchangesAt(st.s, t.s, t.i, t.j)
      && KeyByte(t) == t.s[(st.s[t.i] as int + st.s[t.j]) % 256]
  {
    hide Advances, KeyByte, Exchanged;
    var t := Next(st);
    MovesOn(st.i, 1);
    MovesOn(st.j, st.s[t.i]);
    ExchangedIs(st.s, t.i, t.j);
    GivenByte(st.s, t);
  }

  lemma MovesOn(x: int, a: int)
    ensures Advances(x, (a + x) % 256, a, 0)
  {
    var sum := a + x;
    assert sum == (sum / 256) * 256 + sum % 256;
    Multiple(-(sum / 256));
  }

  lemma ExchangedIs(s: Box, x: byte, y: byte)
    ensures ExchangesAt(s, Exchanged(s, x, y), x, y)
  {
  }

  /** The two bytes add up to the same before and after their exchange. */
  lemma GivenByte(before: seq<byte>, t: State)
    requires ExchangesAt(before, t.s, t.i, t.j)
    ensures KeyByte(t) == t.s[(before[t.i] as int + before[t.j]) % 256]
  {
  }
}
