/** Block encryption in ECB mode with PKCS #7 padding (utils/cryptoes/aescrypto.go), for
    any invertible block cipher. Padding is that of section 6.3 of RFC 5652, ECB that of
    section 6.1 of NIST SP 800-38A. */
module EcbCrypto {
  import opened Arithmetic
  import opened Options

  type Byte = b: int | 0 <= b < 256

  datatype Cipher = Cipher(blockSize: nat, encrypt: seq<Byte> -> seq<Byte>, decrypt: seq<Byte> -> seq<Byte>)

  /** Both directions map blocks to blocks, and the second undoes the first. */
  ghost predicate Invertible(c: Cipher) {
    && c.blockSize >= 1
    && (forall b :: |b| == c.blockSize ==> |c.encrypt(b)| == c.blockSize)
    && (forall b :: |b| == c.blockSize ==> |c.decrypt(b)| == c.blockSize)
    && forall b :: |b| == c.blockSize ==> c.decrypt(c.encrypt(b)) == b
  }

  /** The result of a call that can also return an error or panic. */
  datatype Outcome = Ok(data: seq<Byte>) | BadKey | Panic

  // ---------------------------------------------------------------------------
  // Padding
  // ---------------------------------------------------------------------------

  function PadLength(n: nat, blockSize: nat): (p: nat)
    requires blockSize >= 1
    ensures 1 <= p <= blockSize && (n + p) % blockSize == 0
  {
    PadFills(n, blockSize);
    blockSize - n % blockSize
  }

  lemma PadFills(n: nat, blockSize: nat)
    requires blockSize >= 1
    ensures (n + (blockSize - n % blockSize)) % blockSize == 0
  {
    var q := n / blockSize;
    assert n + (blockSize - n % blockSize) == (q + 1) * blockSize;
    ModuloOf(q + 1, 0, blockSize);
  }

  /** The pad byte is the pad length cut to a byte. */
  function PKCS7Padding(text: seq<Byte>, blockSize: nat): (r: seq<Byte>)
    requires blockSize >= 1
    ensures |r| % blockSize == 0 && |text| < |r| <= |text| + blockSize && text <= r
    ensures forall i :: |text| <= i < |r| ==> r[i] == (|r| - |text|) % 256
  {
    var padding := PadLength(|text|, blockSize);
    text + seq(padding, _ => padding % 256)
  }

  /** The last byte says how much to drop; it is not validated. */
  function PKCS7UnPadding(data: seq<Byte>): (r: seq<Byte>)
    requires data != []
    ensures r <= data
    ensures |r| == if data[|data| - 1] <= |data| then |data| - data[|data| - 1] else 0
  {
    var unpadding := data[|data| - 1];
    if |data| <= unpadding then [] else data[..|data| - unpadding]
  }

  /** Unpadding undoes padding exactly when the pad length fits a byte, as it does for
      every block size up to 255. */
  lemma UnpaddingUndoesPadding(text: seq<Byte>, blockSize: nat)
    requires blockSize >= 1
    ensures PKCS7UnPadding(PKCS7Padding(text, blockSize)) == text <==> PadLength(|text|, blockSize) <= 255
  {
    var padding, padded := PadLength(|text|, blockSize), PKCS7Padding(text, blockSize);
    var last := padded[|padded| - 1];
    assert last == padding % 256;
    if padding <= 255 {
      assert padded[..|text|] == text;
    } else {
      assert last < padding;
      assert |PKCS7UnPadding(padded)| == |padded| - last;
    }
  }

  // ---------------------------------------------------------------------------
  // Electronic code book
  // ---------------------------------------------------------------------------

  /** Every block on its own. */
  function Ecb(f: seq<Byte> -> seq<Byte>, blockSize: nat, data: seq<Byte>): seq<Byte>
    requires blockSize >= 1 && |data| % blockSize == 0
    decreases |data|
  {
    if data == [] then []
    else
      BlockFits(|data|, blockSize);
      f(data[..blockSize]) + Ecb(f, blockSize, data[blockSize..])
  }

  lemma BlockFits(n: nat, blockSize: nat)
    requires blockSize >= 1 && n > 0 && n % blockSize == 0
    ensures n >= blockSize && (n - blockSize) % blockSize == 0
  {
    var q := n / blockSize;
    assert n == q * blockSize;
    MultipleBounds(q, blockSize);
    assert n - blockSize == (q - 1) * blockSize;
    ModuloOf(q - 1, 0, blockSize);
  }

  lemma {:induction false} EcbKeepsLength(f: seq<Byte> -> seq<Byte>, blockSize: nat, data: seq<Byte>)
    requires blockSize >= 1 && |data| % blockSize == 0
    requires forall b :: |b| == blockSize ==> |f(b)| == blockSize
    ensures |Ecb(f, blockSize, data)| == |data|
    decreases |data|
  {
    if data != [] {
      BlockFits(|data|, blockSize);
      EcbKeepsLength(f, blockSize, data[blockSize..]);
    }
  }

  lemma EcbHead(f: seq<Byte> -> seq<Byte>, blockSize: nat, head: seq<Byte>, tail: seq<Byte>)
    requires blockSize >= 1 && |head| == blockSize && |tail| % blockSize == 0
    ensures |head + tail| % blockSize == 0
    ensures Ecb(f, blockSize, head + tail) == f(head) + Ecb(f, blockSize, tail)
  {
    assert |tail| == |tail| / blockSize * blockSize;
    assert |head + tail| == (|tail| / blockSize + 1) * blockSize;
    ModuloOf(|tail| / blockSize + 1, 0, blockSize);
    assert (head + tail)[..blockSize] == head && (head + tail)[blockSize..] == tail;
  }

  lemma {:induction false} EcbRoundTrip(c: Cipher, data: seq<Byte>)
    requires Invertible(c) && |data| % c.blockSize == 0
    ensures |Ecb(c.encrypt, c.blockSize, data)| == |data|
    ensures Ecb(c.decrypt, c.blockSize, Ecb(c.encrypt, c.blockSize, data)) == data
    decreases |data|
  {
    EcbKeepsLength(c.encrypt, c.blockSize, data);
    if data != [] {
      BlockFits(|data|, c.blockSize);
      var head, tail := data[..c.blockSize], data[c.blockSize..];
      EcbRoundTrip(c, tail);
      EcbHead(c.decrypt, c.blockSize, c.encrypt(head), Ecb(c.encrypt, c.blockSize, tail));
      assert data == head + tail;
    }
  }

  /** Slices of the data without its first block. */
  lemma BlockBehind<T>(data: seq<T>, blockSize: nat, n: nat)
    requires 1 <= blockSize <= n && n + blockSize <= |data|
    ensures var front, tail := data[..n + blockSize], data[blockSize..];
            && front[..blockSize] == data[..n][..blockSize] && front[blockSize..] == tail[..n]
            && data[..n][blockSize..] == tail[..n - blockSize] && tail[n - blockSize..n] == data[n..n + blockSize]
  {
  }

  lemma {:induction false} EcbConcat(f: seq<Byte> -> seq<Byte>, blockSize: nat, data: seq<Byte>, n: nat)
    requires blockSize >= 1 && |data| % blockSize == 0 && n + blockSize <= |data| && n % blockSize == 0
    requires forall b :: |b| == blockSize ==> |f(b)| == blockSize
    ensures (n + blockSize) % blockSize == 0
    ensures Ecb(f, blockSize, data[..n + blockSize]) == Ecb(f, blockSize, data[..n]) + f(data[n..n + blockSize])
    decreases n
  {
    assert n == n / blockSize * blockSize;
    ModuloOf(n / blockSize + 1, 0, blockSize);
    assert (n / blockSize + 1) * blockSize == n + blockSize;
    var front := data[..n + blockSize];
    if n == 0 {
      assert front[..blockSize] == front && front[blockSize..] == [] && data[..0] == [];
      assert data[0..blockSize] == front;
    } else {
      BlockFits(n, blockSize);
      BlockFits(|data|, blockSize);
      EcbConcat(f, blockSize, data[blockSize..], n - blockSize);
      BlockBehind(data, blockSize, n);
    }
  }

  /** Every block of the result is the block function of that block of the data. */
  lemma {:induction false} EcbBlockwise(f: seq<Byte> -> seq<Byte>, blockSize: nat, data: seq<Byte>, n: nat)
    requires blockSize >= 1 && |data| % blockSize == 0 && n + blockSize <= |data| && n % blockSize == 0
    requires forall b :: |b| == blockSize ==> |f(b)| == blockSize
    ensures |Ecb(f, blockSize, data)| == |data|
    ensures Ecb(f, blockSize, data)[n..n + blockSize] == f(data[n..n + blockSize])
    decreases n
  {
    EcbKeepsLength(f, blockSize, data);
    BlockFits(|data|, blockSize);
    var head, tail := data[..blockSize], data[blockSize..];
    assert Ecb(f, blockSize, data) == f(head) + Ecb(f, blockSize, tail);
    if n == 0 {
      assert data[0..blockSize] == head;
    } else {
      BlockFits(n, blockSize);
      EcbBlockwise(f, blockSize, tail, n - blockSize);
      assert tail[n - blockSize..n] == data[n..n + blockSize];
      assert (f(head) + Ecb(f, blockSize, tail))[n..n + blockSize] == Ecb(f, blockSize, tail)[n - blockSize..n];
    }
  }

  /** The CryptBlocks loop, writing `dst` block by block; `dst` may be `src` itself. The
      preconditions are those whose violation makes the source panic. */
  method CryptBlocks(f: seq<Byte> -> seq<Byte>, blockSize: nat, dst: array<Byte>, src: array<Byte>)
    requires blockSize >= 1 && forall b :: |b| == blockSize ==> |f(b)| == blockSize
    requires src.Length % blockSize == 0 && dst.Length >= src.Length
    modifies dst
    ensures dst[..] == Ecb(f, blockSize, old(src[..])) + old(dst[src.Length..])
  {
    var done := 0;
    while done < src.Length
      invariant 0 <= done <= src.Length && done % blockSize == 0
      invariant dst[..done] == Ecb(f, blockSize, old(src[..])[..done])
      invariant forall k :: done <= k < dst.Length ==> dst[k] == old(dst[k])
      invariant forall k :: done <= k < src.Length ==> src[k] == old(src[k])
    {
      BlockRemains(src.Length, done, blockSize);
      var block := src[done..done + blockSize];
      assert block == old(src[..])[done..done + blockSize];
      EcbConcat(f, blockSize, old(src[..]), done);
      ghost var before := dst[..done];
      var code := f(block);
      forall k | 0 <= k < blockSize {
        dst[done + k] := code[k];
      }
      assert dst[..done] == before;
      assert dst[done..done + blockSize] == code;
      assert dst[..done + blockSize] == dst[..done] + dst[done..done + blockSize];
      done := done + blockSize;
    }
    assert old(src[..])[..src.Length] == old(src[..]);
    assert dst[..] == dst[..src.Length] + dst[src.Length..];
  }

  lemma BlockRemains(n: nat, done: nat, blockSize: nat)
    requires blockSize >= 1 && done < n && n % blockSize == 0 && done % blockSize == 0
    ensures done + blockSize <= n
  {
    var d := n / blockSize - done / blockSize;
    assert n == n / blockSize * blockSize && done == done / blockSize * blockSize;
    assert n - done == d * blockSize;
    MultipleBounds(d, blockSize);
  }

  // ---------------------------------------------------------------------------
  // Encryption and decryption
  // ---------------------------------------------------------------------------

  function Encrypted(c: Cipher, text: seq<Byte>): seq<Byte>
    requires c.blockSize >= 1
  {
    Ecb(c.encrypt, c.blockSize, PKCS7Padding(text, c.blockSize))
  }

  /** `cipher` is what the key gives, if it is a key at all. */
  method AesEncrypt(text: seq<Byte>, cipher: Option<Cipher>) returns (out: Outcome)
    requires cipher.Some? ==> Invertible(cipher.value)
    ensures out == if cipher.None? then BadKey else Ok(Encrypted(cipher.value, text))
  {
    if cipher.None? {
      return BadKey;
    }
    var c := cipher.value;
    var padded := PKCS7Padding(text, c.blockSize);
    var origData, crypted := new Byte[|padded|](i requires 0 <= i < |padded| => padded[i]), new Byte[|padded|];
    assert origData[..] == padded;
    CryptBlocks(c.encrypt, c.blockSize, crypted, origData);
    EcbKeepsLength(c.encrypt, c.blockSize, padded);
    out := Ok(crypted[..]);
  }

  method AesDecrypt(crypted: seq<Byte>, cipher: Option<Cipher>) returns (out: Outcome)
    requires cipher.Some? ==> Invertible(cipher.value)
    ensures out.BadKey? <==> cipher.None?
    ensures out.Panic? <==> cipher.Some? && (crypted == [] || |crypted| % cipher.value.blockSize != 0)
    ensures out.Ok? ==> crypted != [] && |crypted| % cipher.value.blockSize == 0
                        && |Ecb(cipher.value.decrypt, cipher.value.blockSize, crypted)| == |crypted|
                        && out.data == PKCS7UnPadding(Ecb(cipher.value.decrypt, cipher.value.blockSize, crypted))
  {
    if cipher.None? {
      return BadKey;
    }
    var c := cipher.value;
    if |crypted| % c.blockSize != 0 || |crypted| == 0 {
      return Panic;
    }
    var src, origData := new Byte[|crypted|](i requires 0 <= i < |crypted| => crypted[i]), new Byte[|crypted|];
    assert src[..] == crypted;
    CryptBlocks(c.decrypt, c.blockSize, origData, src);
    EcbKeepsLength(c.decrypt, c.blockSize, crypted);
    out := Ok(PKCS7UnPadding(origData[..]));
  }

  /** Decrypting what was encrypted gives the text back exactly when the pad length fits
      a byte: for block sizes up to 255, on every text. */
  lemma DecryptUndoesEncrypt(c: Cipher, text: seq<Byte>)
    requires Invertible(c)
    ensures var code := Encrypted(c, text);
            && code != [] && |code| % c.blockSize == 0
            && |Ecb(c.decrypt, c.blockSize, code)| == |code|
            && (PKCS7UnPadding(Ecb(c.decrypt, c.blockSize, code)) == text <==> PadLength(|text|, c.blockSize) <= 255)
            && (c.blockSize <= 255 ==> PKCS7UnPadding(Ecb(c.decrypt, c.blockSize, code)) == text)
  {
    var padded := PKCS7Padding(text, c.blockSize);
    EcbRoundTrip(c, padded);
    UnpaddingUndoesPadding(text, c.blockSize);
  }

  /** The round trip through the two methods. */
  method EncryptThenDecrypt(text: seq<Byte>, c: Cipher) returns (back: Outcome)
    requires Invertible(c) && c.blockSize <= 255
    ensures back == Ok(text)
  {
    var code := AesEncrypt(text, Some(c));
    DecryptUndoesEncrypt(c, text);
    back := AesDecrypt(code.data, Some(c));
  }
}
