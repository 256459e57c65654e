/** The text a wallet signs before an identity check, its EIP-191 envelope and the verification of the
    signature. Texts are sequences of bytes, written as characters. */
module SignedMessage {
  import opened Wrappers

  const OPENING := "I accept the KYC Policy and hereby request an identity verification check for "
  const SEPARATOR := " with nonce "
  const PREFIX := "\U{19}Ethereum Signed Message:\n"

  function Message(wallet: string, nonce: string): string {
    OPENING + wallet + SEPARATOR + nonce
  }

  /** The decimal digits of a length. */
  function Digits(n: nat): (r: string)
    ensures |r| >= 1
  {
    if n < 10 then ["0123456789"[n]] else Digits(n / 10) + ["0123456789"[n % 10]]
  }

  /** The bytes that are hashed. */
  function Envelope(message: string): string {
    PREFIX + Digits(|message|) + message
  }

  // ----- Which bytes are hashed -----

  predicate AllDecimal(s: string) {
    forall i :: 0 <= i < |s| ==> '0' <= s[i] <= '9'
  }

  /** A numeral read from left to right. */
  ghost function Value(s: string): nat
    requires AllDecimal(s)
  {
    if s == [] then 0 else 10 * Value(s[..|s| - 1]) + (s[|s| - 1] as int - '0' as int)
  }

  /** A decimal numeral without superfluous zeros in front. */
  ghost predicate IsNumeral(s: string) {
    s != [] && AllDecimal(s) && (s[0] == '0' ==> |s| == 1)
  }

  lemma {:induction false} DigitsMean(n: nat)
    ensures IsNumeral(Digits(n)) && Value(Digits(n)) == n
    ensures n > 0 ==> Digits(n)[0] != '0'
  {
    var c := "0123456789"[n % 10];
    assert '0' <= c <= '9' && c as int - '0' as int == n % 10;
    if n < 10 {
      assert Digits(n) == [c] && [c][..0] == [];
    } else {
      DigitsMean(n / 10);
      var front := Digits(n / 10);
      assert Digits(n) == front + [c] && (front + [c])[..|front|] == front;
    }
  }

  lemma {:induction false} NumeralIsDigits(s: string)
    requires IsNumeral(s)
    ensures Digits(Value(s)) == s && (s[0] != '0' ==> Value(s) > 0)
  {
    var n := |s| - 1;
    var d := s[n] as int - '0' as int;
    assert "0123456789"[d] == s[n];
    assert s == s[..n] + [s[n]];
    if n == 0 {
      assert s[..0] == [] && Value(s) == d;
    } else {
      NumeralIsDigits(s[..n]);
      var v := Value(s[..n]);
      assert Value(s) == 10 * v + d && v > 0;
      hide Value, IsNumeral, AllDecimal;
      assert (10 * v + d) / 10 == v && (10 * v + d) % 10 == d;
    }
  }

  /** The bytes of EIP-191, version 0x45, for a request: 0x19, the fixed text, a newline, the length of the
      signed text as a decimal numeral, and the signed text itself. */
  ghost predicate Hashed(bytes: string, wallet: string, nonce: string) {
    var text := "I accept the KYC Policy and hereby request an identity verification check for " + wallet
                + " with nonce " + nonce;
    exists numeral ::
      && IsNumeral(numeral) && Value(numeral) == |text|
      && bytes == "\U{19}Ethereum Signed Message:\n" + numeral + text
  }

  lemma HashedIff(bytes: string, wallet: string, nonce: string)
    ensures Hashed(bytes, wallet, nonce) <==> bytes == Envelope(Message(wallet, nonce))
  {
    var text := Message(wallet, nonce);
    assert text == "I accept the KYC Policy and hereby request an identity verification check for " + wallet
                   + " with nonce " + nonce;
    DigitsMean(|text|);
    if Hashed(bytes, wallet, nonce) {
      var numeral :| IsNumeral(numeral) && Value(numeral) == |text|
                     && bytes == "\U{19}Ethereum Signed Message:\n" + numeral + text;
      NumeralIsDigits(numeral);
    }
    assert Envelope(text) == "\U{19}Ethereum Signed Message:\n" + Digits(|text|) + text;
  }

  // ----- The envelope determines the message -----

  lemma {:induction false} DigitsGrow(m: nat, n: nat)
    requires m <= n
    ensures |Digits(m)| <= |Digits(n)|
    decreases n
  {
    if m >= 10 { DigitsGrow(m / 10, n / 10); }
  }

  lemma EnvelopeGrows(m: string, n: string)
    requires |m| < |n|
    ensures |Envelope(m)| < |Envelope(n)|
  {
    DigitsGrow(|m|, |n|);
  }

  /** The length digits are not delimited from the message, yet no two messages share an envelope:
      a longer message has a strictly longer envelope. */
  lemma EnvelopeInjective(m: string, n: string)
    ensures Envelope(m) == Envelope(n) <==> m == n
  {
    if |m| < |n| { EnvelopeGrows(m, n); }
    if |n| < |m| { EnvelopeGrows(n, m); }
    if Envelope(m) == Envelope(n) {
      assert m == Envelope(m)[|Envelope(m)| - |m|..];
      assert n == Envelope(n)[|Envelope(n)| - |n|..];
    }
  }

  // ----- When the message determines wallet and nonce -----

  /** A nonce that contains the separator again, cut at its second occurrence. */
  ghost predicate CutLater(w: string, n: string, w': string, n': string) {
    exists s: string :: w' == w + SEPARATOR + s && n == s + SEPARATOR + n'
  }

  /** The one way in which two occurrences of the separator overlap: they share a blank. */
  predicate CutAtSharedBlank(w: string, n: string, w': string, n': string) {
    w' == w + " with nonce" && n == "with nonce " + n'
  }

  lemma SharedBlank()
    ensures SEPARATOR == " with nonce" + " " == " " + "with nonce "
    ensures forall d {:trigger SEPARATOR[d..]} :: 1 <= d < |SEPARATOR| ==>
              (SEPARATOR[d..] == SEPARATOR[..|SEPARATOR| - d] <==> d == |SEPARATOR| - 1)
  {
    forall d | 1 <= d < |SEPARATOR|
      ensures SEPARATOR[d..] == SEPARATOR[..|SEPARATOR| - d] <==> d == |SEPARATOR| - 1
    {
      if d < |SEPARATOR| - 1 {
        var k := if d == 5 then 1 else 0;
        assert SEPARATOR[d..][k] != SEPARATOR[..|SEPARATOR| - d][k];
      }
    }
  }

  /** Exactly which requests sign the same text as a given one with a wallet no longer than theirs. */
  lemma SameMessage(w: string, n: string, w': string, n': string)
    requires |w| <= |w'|
    ensures Message(w, n) == Message(w', n') <==>
            (w == w' && n == n') || CutLater(w, n, w', n') || CutAtSharedBlank(w, n, w', n')
  {
    hide *;
    if Message(w, n) == Message(w', n') { CutOnceOrTwice(w, n, w', n'); }
    if CutLater(w, n, w', n') { CutLaterCollides(w, n, w', n'); }
    if CutAtSharedBlank(w, n, w', n') { SharedBlankCollides(w, n, w', n'); }
  }

  lemma CutLaterCollides(w: string, n: string, w': string, n': string)
    requires CutLater(w, n, w', n')
    ensures Message(w, n) == Message(w', n')
  {
    hide OPENING, SEPARATOR;
    var s: string :| w' == w + SEPARATOR + s && n == s + SEPARATOR + n';
    assert w + SEPARATOR + n == w' + SEPARATOR + n';
    Opened(w, n);
    Opened(w', n');
  }

  lemma SharedBlankCollides(w: string, n: string, w': string, n': string)
    requires CutAtSharedBlank(w, n, w', n')
    ensures Message(w, n) == Message(w', n')
  {
    SharedBlank();
    Regroup(w, " with nonce", " ", "with nonce ", n');
    Opened(w, n);
    Opened(w', n');
    hide OPENING, SEPARATOR, Message;
  }

  lemma Regroup(a: string, b: string, c: string, d: string, e: string)
    requires b + c == c + d
    ensures a + (b + c) + (d + e) == a + b + (c + d) + e
  {
  }

  lemma Opened(w: string, n: string)
    ensures Message(w, n) == OPENING + (w + SEPARATOR + n)
  {
    hide OPENING, SEPARATOR;
  }

  lemma SameTail(w: string, n: string, w': string, n': string)
    requires Message(w, n) == Message(w', n')
    ensures w + SEPARATOR + n == w' + SEPARATOR + n'
  {
    assert w + SEPARATOR + n == Message(w, n)[|OPENING|..];
    assert w' + SEPARATOR + n' == Message(w', n')[|OPENING|..];
  }

  lemma CutOnceOrTwice(w: string, n: string, w': string, n': string)
    requires |w| <= |w'| && Message(w, n) == Message(w', n')
    ensures (w == w' && n == n') || CutLater(w, n, w', n') || CutAtSharedBlank(w, n, w', n')
  {
    SameTail(w, n, w', n');
    var d := |w'| - |w|;
    var tail, tail' := SEPARATOR + n, w'[|w|..] + SEPARATOR + n';
    SameSuffix(w, tail, w', n');
    if d == 0 {
      assert n == tail[|SEPARATOR|..] && n' == tail'[|SEPARATOR|..];
    } else if d < |SEPARATOR| {
      Overlap(n, w'[|w|..], n');
      assert w' == w + w'[|w|..];
    } else {
      var s := w'[|w| + |SEPARATOR|..];
      assert w' == w + w'[|w|..];
      assert w'[|w|..] == tail[..d] == SEPARATOR + s;
      assert n == tail[|SEPARATOR|..] == s + SEPARATOR + n';
      assert w' == w + SEPARATOR + s;
    }
  }

  lemma SameSuffix(w: string, tail: string, w': string, n': string)
    requires |w| <= |w'| && w + tail == w' + SEPARATOR + n'
    ensures w == w'[..|w|] && tail == w'[|w|..] + SEPARATOR + n'
  {
    var whole := w + tail;
    assert w == whole[..|w|] && tail == whole[|w|..];
    assert whole == w' + SEPARATOR + n';
  }

  lemma Overlap(n: string, v: string, n': string)
    requires 1 <= |v| < |SEPARATOR| && SEPARATOR + n == v + SEPARATOR + n'
    ensures v == " with nonce" && n == "with nonce " + n'
  {
    SharedBlank();
    var d := |v|;
    var whole := SEPARATOR + n;
    assert v == whole[..d] == SEPARATOR[..d];
    assert SEPARATOR[d..] == whole[d..|SEPARATOR|] == SEPARATOR[..|SEPARATOR| - d];
    assert n == whole[|SEPARATOR|..] == SEPARATOR[|SEPARATOR| - d..] + n';
  }

  /** Without a fixed wallet length the text is ambiguous. */
  lemma UnequalWalletsCanCollide()
    ensures Message("a", "b with nonce c") == Message("a with nonce b", "c")
    ensures Message("a", "with nonce b") == Message("a with nonce", "b")
  {
    assert "b with nonce c" == "b" + SEPARATOR + "c";
    assert "a with nonce b" == "a" + SEPARATOR + "b";
    assert "with nonce b" == "with nonce " + "b" && "a with nonce" == "a" + " with nonce";
    hide OPENING, SEPARATOR, Message;
    CutLaterCollides("a", "b with nonce c", "a with nonce b", "c");
    SharedBlankCollides("a", "with nonce b", "a with nonce", "b");
  }

  // ----- Verification -----

  predicate IsHexDigit(c: char) {
    '0' <= c <= '9' || 'a' <= c <= 'f' || 'A' <= c <= 'F'
  }

  function HexValue(c: char): (r: nat)
    requires IsHexDigit(c)
    ensures r < 16
  {
    if c <= '9' then c as int - '0' as int
    else if c <= 'F' then c as int - 'A' as int + 10
    else c as int - 'a' as int + 10
  }

  function Lower(c: char): char {
    if 'A' <= c <= 'Z' then c + ' ' else c
  }

  /** Case-insensitive equality; the letters that occur in addresses have no fold partner outside ASCII. */
  predicate EqualFold(s: string, t: string) {
    |s| == |t| && forall i :: 0 <= i < |s| ==> Lower(s[i]) == Lower(t[i])
  }

  predicate AllHex(s: string) {
    forall i :: 0 <= i < |s| ==> IsHexDigit(s[i])
  }

  /** `hex.DecodeString`: fails on an odd length or a character that is no hex digit. */
  function DecodeHex(s: string): Option<seq<nat>> {
    if s == [] then Some([])
    else if |s| == 1 || !IsHexDigit(s[0]) || !IsHexDigit(s[1]) then None
    else match DecodeHex(s[2..])
      case None => None
      case Some(rest) => Some([16 * HexValue(s[0]) + HexValue(s[1])] + rest)
  }

  lemma {:induction false} DecodeHexSucceeds(s: string)
    ensures DecodeHex(s).Some? <==> |s| % 2 == 0 && AllHex(s)
    ensures DecodeHex(s).Some? ==> |DecodeHex(s).value| == |s| / 2
  {
    if |s| >= 2 {
      DecodeHexSucceeds(s[2..]);
      assert s == [s[0], s[1]] + s[2..];
    }
  }

  lemma SameHexDigit(c: char, d: char)
    requires IsHexDigit(c) && IsHexDigit(d)
    ensures HexValue(c) == HexValue(d) <==> Lower(c) == Lower(d)
  {
  }

  /** Signature texts denote the same bytes exactly if they differ in letter case only. */
  lemma {:induction false} DecodeHexInjective(s: string, t: string)
    requires DecodeHex(s).Some? && DecodeHex(t).Some?
    ensures DecodeHex(s) == DecodeHex(t) <==> EqualFold(s, t)
  {
    DecodeHexSucceeds(s);
    DecodeHexSucceeds(t);
    if |s| == |t| && s != [] {
      DecodeHexInjective(s[2..], t[2..]);
      var x, y := DecodeHex(s).value, DecodeHex(t).value;
      assert x == [x[0]] + x[1..] && y == [y[0]] + y[1..];
      assert x[1..] == DecodeHex(s[2..]).value && y[1..] == DecodeHex(t[2..]).value;
      SameHexDigit(s[0], t[0]);
      SameHexDigit(s[1], t[1]);
      FoldSplits(s, t);
    }
  }

  function HexDigit(n: nat): (c: char)
    requires n < 16
    ensures IsHexDigit(c) && HexValue(c) == n
  {
    "0123456789abcdef"[n]
  }

  predicate AllBytes(bytes: seq<nat>) {
    forall i :: 0 <= i < |bytes| ==> bytes[i] < 256
  }

  /** The lower-case hex text of bytes. */
  function EncodeHex(bytes: seq<nat>): string
    requires AllBytes(bytes)
  {
    if bytes == [] then []
    else [HexDigit(bytes[0] / 16), HexDigit(bytes[0] % 16)] + EncodeHex(bytes[1..])
  }

  lemma {:induction false} HexRoundTrip(bytes: seq<nat>)
    requires AllBytes(bytes)
    ensures DecodeHex(EncodeHex(bytes)) == Some(bytes)
  {
    if bytes != [] {
      var b, rest := bytes[0], bytes[1..];
      HexRoundTrip(rest);
      DecodePair(HexDigit(b / 16), HexDigit(b % 16), EncodeHex(rest));
      assert bytes == [b] + rest;
      hide DecodeHex, HexDigit, HexValue, IsHexDigit, AllBytes;
    }
  }

  lemma DecodePair(c: char, d: char, rest: string)
    requires IsHexDigit(c) && IsHexDigit(d) && DecodeHex(rest).Some?
    ensures DecodeHex([c, d] + rest) == Some([16 * HexValue(c) + HexValue(d)] + DecodeHex(rest).value)
  {
    assert ([c, d] + rest)[2..] == rest;
    hide HexValue, IsHexDigit;
  }

  lemma {:induction false} DecodeHexBytes(s: string)
    requires DecodeHex(s).Some?
    ensures AllBytes(DecodeHex(s).value)
  {
    if s != [] { DecodeHexBytes(s[2..]); }
  }

  /** A text decodes to the given bytes if and only if it is their hex text, letter case aside. */
  lemma DecodesTo(s: string, bytes: seq<nat>)
    requires AllBytes(bytes)
    ensures DecodeHex(s) == Some(bytes) <==> EqualFold(s, EncodeHex(bytes))
  {
    var t := EncodeHex(bytes);
    HexRoundTrip(bytes);
    DecodeHexSucceeds(t);
    DecodeHexSucceeds(s);
    if DecodeHex(s).Some? {
      DecodeHexInjective(s, t);
    } else if EqualFold(s, t) {
      FoldKeepsHex(s, t);
    }
  }

  lemma FoldKeepsHex(s: string, t: string)
    requires EqualFold(s, t) && AllHex(t)
    ensures AllHex(s)
  {
    forall i | 0 <= i < |s| ensures IsHexDigit(s[i]) {
      assert Lower(s[i]) == Lower(t[i]) && IsHexDigit(t[i]);
    }
  }

  lemma FoldSplits(s: string, t: string)
    requires |s| == |t| && |s| >= 2
    ensures EqualFold(s, t) <==> Lower(s[0]) == Lower(t[0]) && Lower(s[1]) == Lower(t[1]) && EqualFold(s[2..], t[2..])
  {
    if EqualFold(s[2..], t[2..]) {
      assert forall i :: 2 <= i < |s| ==> s[i] == s[2..][i - 2] && t[i] == t[2..][i - 2];
    }
  }

  /** The text of an address: 0x and forty hex digits. */
  predicate IsAddress(s: string) {
    |s| == 42 && s[0] == '0' && s[1] == 'x' && AllHex(s[2..])
  }

  type Address = s: string | IsAddress(s) witness "0x" + seq(40, _ => '0')

  datatype Rejection = BadFormat | BadLength | BadRecoveryId | BadSignature

  /** Hashing, key recovery and the checksummed address text are one parameter: from the hashed bytes,
      the 64 signature bytes and the recovery id to the signer, if any. */
  type Recovery = (string, seq<nat>, nat) -> Option<Address>

  /** The signer recovered from 65 signature bytes, the last being 27 plus the recovery id. */
  function Signer(recover: Recovery, hashed: string, sig: seq<nat>): Result<Address, Rejection> {
    if |sig| != 65 then Err(BadLength)
    else if sig[64] != 27 && sig[64] != 28 then Err(BadRecoveryId)
    else match recover(hashed, sig[..64], sig[64] - 27)
      case None => Err(BadSignature)
      case Some(signer) => Ok(signer)
  }

  function Verify(recover: Recovery, wallet: string, signature: string, nonce: string): Result<(), Rejection> {
    match DecodeHex(signature)
    case None => Err(BadFormat)
    case Some(sig) =>
      match Signer(recover, Envelope(Message(wallet, nonce)), sig)
      case Err(e) => Err(e)
      case Ok(signer) => if EqualFold(signer, wallet) then Ok(()) else Err(BadSignature)
  }

  /** A signature text stands for the signer's 64 bytes and the recovery id, offset by 27. */
  ghost predicate Presents(signature: string, rs: seq<nat>, v: nat) {
    && |rs| == 64 && v < 2 && AllBytes(rs)
    && EqualFold(signature, EncodeHex(rs + [27 + v]))
  }

  /** A request is accepted if and only if its signature presents a signature of its EIP-191 bytes whose
      signer is the wallet, letter case aside. */
  lemma VerifyIff(recover: Recovery, wallet: string, signature: string, nonce: string)
    ensures Verify(recover, wallet, signature, nonce).Ok? <==>
            exists rs, v :: Presents(signature, rs, v) && SignedBy(recover, wallet, nonce, rs, v)
  {
    hide EncodeHex, DecodeHex, EqualFold, Envelope, Message, Hashed;
    HashedIff(Envelope(Message(wallet, nonce)), wallet, nonce);
    var decoded := DecodeHex(signature);
    if Verify(recover, wallet, signature, nonce).Ok? {
      var all := decoded.value;
      DecodeHexBytes(signature);
      DecodesTo(signature, all);
      var rs, v: nat := all[..64], all[64] - 27;
      assert all == rs + [27 + v];
      assert Presents(signature, rs, v) && SignedBy(recover, wallet, nonce, rs, v);
    }
    if rs, v :| Presents(signature, rs, v) && SignedBy(recover, wallet, nonce, rs, v) {
      var bytes :| Hashed(bytes, wallet, nonce) && AcceptedSigner(recover(bytes, rs, v), wallet);
      HashedIff(bytes, wallet, nonce);
      DecodesTo(signature, rs + [27 + v]);
      assert (rs + [27 + v])[..64] == rs;
    }
  }

  ghost predicate SignedBy(recover: Recovery, wallet: string, nonce: string, rs: seq<nat>, v: nat) {
    exists bytes :: Hashed(bytes, wallet, nonce) && AcceptedSigner(recover(bytes, rs, v), wallet)
  }

  ghost predicate AcceptedSigner(signer: Option<Address>, wallet: string) {
    signer.Some? && EqualFold(signer.value, wallet)
  }

  /** Which error a signature text draws, whatever was signed. */
  lemma VerifyRejects(recover: Recovery, wallet: string, signature: string, nonce: string)
    ensures Verify(recover, wallet, signature, nonce) == Err(BadFormat) <==> |signature| % 2 != 0 || !AllHex(signature)
    ensures Verify(recover, wallet, signature, nonce) == Err(BadLength) <==>
              |signature| % 2 == 0 && AllHex(signature) && |signature| != 130
    ensures Verify(recover, wallet, signature, nonce) == Err(BadRecoveryId) <==>
              && |signature| == 130 && AllHex(signature)
              && !EqualFold(signature[128..], "1b") && !EqualFold(signature[128..], "1c")
  {
    DecodeHexSucceeds(signature);
    if |signature| == 130 && AllHex(signature) { RecoveryIdText(signature); }
    hide DecodeHex, EqualFold, Envelope, Message, AllHex;
  }

  /** Letter case is all that folding forgets. */
  lemma LowerMeans(c: char, d: char)
    ensures Lower(c) == Lower(d) <==>
              c == d || ('A' <= c <= 'Z' && d == c + ' ') || ('A' <= d <= 'Z' && c == d + ' ')
  {
  }

  /** Acceptance: 130 hex digits that end in one of two recovery ids, and the wallet text is the signer's
      address in some letter case, so it is 42 characters long. */
  lemma VerifyAccepts(recover: Recovery, wallet: string, signature: string, nonce: string)
    requires Verify(recover, wallet, signature, nonce).Ok?
    ensures |signature| == 130 && AllHex(signature)
    ensures EqualFold(signature[128..], "1b") || EqualFold(signature[128..], "1c")
    ensures |wallet| == 42 && wallet[0] == '0' && (wallet[1] == 'x' || wallet[1] == 'X') && AllHex(wallet[2..])
  {
    DecodeHexSucceeds(signature);
    RecoveryIdText(signature);
    var signer := Signer(recover, Envelope(Message(wallet, nonce)), DecodeHex(signature).value).value;
    hide DecodeHex, HexValue, Envelope, Message, IsHexDigit;
    FoldOfAddress(signer, wallet);
  }

  lemma {:induction false} DecodeHexAt(s: string, k: nat)
    requires DecodeHex(s).Some? && k < |s| / 2
    ensures AllHex(s) && |DecodeHex(s).value| == |s| / 2
    ensures DecodeHex(s).value[k] == 16 * HexValue(s[2 * k]) + HexValue(s[2 * k + 1])
  {
    DecodeHexSucceeds(s);
    if k > 0 { DecodeHexAt(s[2..], k - 1); }
  }

  lemma RecoveryIdText(s: string)
    requires DecodeHex(s).Some? && |s| == 130
    ensures |DecodeHex(s).value| == 65
    ensures DecodeHex(s).value[64] == 27 <==> EqualFold(s[128..], "1b")
    ensures DecodeHex(s).value[64] == 28 <==> EqualFold(s[128..], "1c")
  {
    DecodeHexAt(s, 64);
    hide DecodeHex;
    assert s[128..] == [s[128], s[129]];
    LastByte(s[128], s[129]);
  }

  lemma LastByte(c: char, d: char)
    requires IsHexDigit(c) && IsHexDigit(d)
    ensures 16 * HexValue(c) + HexValue(d) == 27 <==> EqualFold([c, d], "1b")
    ensures 16 * HexValue(c) + HexValue(d) == 28 <==> EqualFold([c, d], "1c")
  {
    SameHexDigit(c, '1');
    SameHexDigit(d, 'b');
    SameHexDigit(d, 'c');
    assert HexValue('1') == 1 && HexValue('b') == 11 && HexValue('c') == 12;
    assert |[c, d]| == 2 && |"1b"| == 2 && |"1c"| == 2;
    assert [c, d][0] == c && [c, d][1] == d;
    assert "1b"[0] == '1' && "1b"[1] == 'b' && "1c"[0] == '1' && "1c"[1] == 'c';
    hide HexValue, Lower;
  }

  lemma FoldOfAddress(signer: Address, wallet: string)
    requires EqualFold(signer, wallet)
    ensures |wallet| == 42 && wallet[0] == '0' && (wallet[1] == 'x' || wallet[1] == 'X') && AllHex(wallet[2..])
  {
    assert Lower(signer[0]) == Lower(wallet[0]) && Lower(signer[1]) == Lower(wallet[1]);
    forall i | 2 <= i < 42
      ensures IsHexDigit(wallet[i])
    {
      assert signer[i] == signer[2..][i - 2];
      assert Lower(signer[i]) == Lower(wallet[i]);
    }
  }

  /** Among accepted requests the hashed bytes determine the wallet text and the nonce. */
  lemma AcceptedBytesDetermineRequest(recover: Recovery,
                                      wallet: string, signature: string, nonce: string,
                                      wallet': string, signature': string, nonce': string)
    requires Verify(recover, wallet, signature, nonce).Ok? && Verify(recover, wallet', signature', nonce').Ok?
    ensures Envelope(Message(wallet, nonce)) == Envelope(Message(wallet', nonce'))
        <==> wallet == wallet' && nonce == nonce'
  {
    VerifyAccepts(recover, wallet, signature, nonce);
    VerifyAccepts(recover, wallet', signature', nonce');
    EnvelopeInjective(Message(wallet, nonce), Message(wallet', nonce'));
    SameMessage(wallet, nonce, wallet', nonce');
  }
}
