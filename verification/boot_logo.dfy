/** The boot-logo check (`check_ninteno_code`): the 48 header bytes at
    0x0104..0x0133 are compared, position by position, with the reference
    signature the reader holds, and the matching positions are counted. */
module BootLogo {
  import opened Bytes

  /** The reference signature installed by `CartridgeReader::new`. */
  const NintendoLogo: Signature := LogoBytes

  /** The 48 bytes of the reference signature. */
  const LogoBytes: seq<byte> := [
    0xCE, 0xED, 0x66, 0x66, 0xCC, 0x0D, 0x00, 0x0B, 0x03, 0x73, 0x00, 0x83, 0x00, 0x0C,
    0x00, 0x0D, 0x00, 0x08, 0x11, 0x1F, 0x88, 0x89, 0x00, 0x0E, 0xDC, 0xCC, 0x6E, 0xE6,
    0xDD, 0xDD, 0xD9, 0x99, 0xBB, 0xBB, 0x67, 0x63, 0x6E, 0x0E, 0xEC, 0xCC, 0xDD, 0xDC,
    0x99, 0x9F, 0xBB, 0xB9, 0x33, 0x3E
  ]

  /** First buffer offset of the logo region. */
  const LogoStart: nat := 0x0104
  /** One past the last buffer offset of the logo region. */
  const LogoEnd: nat := 0x0134

  /** Buffer offset `n` of the logo region holds the signature's byte. */
  predicate MatchesAt(sig: Signature, cart: Buffer, n: int)
    requires LogoStart <= n < LogoEnd
  {
    sig[n - LogoStart] == cart[n]
  }

  /** The offsets in `LogoStart..hi` whose byte matches the signature:
      the reference meaning of the count. */
  ghost function MatchSet(sig: Signature, cart: Buffer, hi: int): set<int>
    requires LogoStart <= hi <= LogoEnd
  {
    set n | LogoStart <= n < hi && MatchesAt(sig, cart, n)
  }

  /** Number of matching offsets in `LogoStart..hi`, counted the way the
      loop counts them: one offset at a time, in increasing order. */
  function MatchCount(sig: Signature, cart: Buffer, hi: int): (r: nat)
    requires LogoStart <= hi <= LogoEnd
    ensures r <= hi - LogoStart
    decreases hi
  {
    if hi == LogoStart then 0
    else MatchCount(sig, cart, hi - 1) + (if MatchesAt(sig, cart, hi - 1) then 1 else 0)
  }

  /** The value `check_ninteno_code` reports as "<successes> out of 48". */
  function LogoSuccesses(sig: Signature, cart: Buffer): (r: nat)
    ensures r <= SignatureSize
  {
    MatchCount(sig, cart, LogoEnd)
  }

  /** The counting loop, with the `u8` counter: every increment is proved
      to stay below 256, so the counter never overflows. */
  method CheckNintendoCode(sig: Signature, cart: Buffer) returns (successes: byte)
    ensures successes as nat == LogoSuccesses(sig, cart)
    ensures successes <= 48
  {
    successes := 0;
    var n := LogoStart;
    while n < LogoEnd
      invariant LogoStart <= n <= LogoEnd
      invariant successes as nat == MatchCount(sig, cart, n)
    {
      if sig[n - LogoStart] == cart[n] {
        successes := successes + 1;
      }
      n := n + 1;
    }
  }

  /** The recursive count is the size of the set of matching offsets. */
  lemma {:induction false} MatchCountIsCardinality(sig: Signature, cart: Buffer, hi: int)
    requires LogoStart <= hi <= LogoEnd
    ensures MatchCount(sig, cart, hi) == |MatchSet(sig, cart, hi)|
    decreases hi
  {
    if hi > LogoStart {
      MatchCountIsCardinality(sig, cart, hi - 1);
      var prev := MatchSet(sig, cart, hi - 1);
      if MatchesAt(sig, cart, hi - 1) {
        assert MatchSet(sig, cart, hi) == prev + {hi - 1};
        assert hi - 1 !in prev;
      } else {
        assert MatchSet(sig, cart, hi) == prev;
      }
    }
  }

  /** The reported count is the number of logo-region offsets `n` with
      `cart[n] == sig[n - 0x0104]`. */
  lemma LogoSuccessesCountsMatches(sig: Signature, cart: Buffer)
    ensures LogoSuccesses(sig, cart) == |set n | LogoStart <= n < LogoEnd && sig[n - LogoStart] == cart[n]|
  {
    MatchCountIsCardinality(sig, cart, LogoEnd);
    assert MatchSet(sig, cart, LogoEnd) == set n | LogoStart <= n < LogoEnd && sig[n - LogoStart] == cart[n];
  }

  /** Every offset below `hi` matches exactly when the count is maximal,
      and none does exactly when the count is zero. */
  lemma {:induction false} MatchCountExtremes(sig: Signature, cart: Buffer, hi: int)
    requires LogoStart <= hi <= LogoEnd
    ensures MatchCount(sig, cart, hi) == hi - LogoStart
            <==> forall n :: LogoStart <= n < hi ==> MatchesAt(sig, cart, n)
    ensures MatchCount(sig, cart, hi) == 0
            <==> forall n :: LogoStart <= n < hi ==> !MatchesAt(sig, cart, n)
    decreases hi
  {
    if hi > LogoStart {
      MatchCountExtremes(sig, cart, hi - 1);
    }
  }

  /** 48 out of 48 is reported exactly when the logo region equals the
      signature. */
  lemma FullScoreIffSignature(sig: Signature, cart: Buffer)
    ensures LogoSuccesses(sig, cart) == SignatureSize <==> cart[LogoStart..LogoEnd] == sig
  {
    MatchCountExtremes(sig, cart, LogoEnd);
    if cart[LogoStart..LogoEnd] == sig {
      forall n | LogoStart <= n < LogoEnd
        ensures MatchesAt(sig, cart, n)
      {
        assert cart[LogoStart..LogoEnd][n - LogoStart] == cart[n];
      }
    }
    if LogoSuccesses(sig, cart) == SignatureSize {
      forall i | 0 <= i < SignatureSize
        ensures cart[LogoStart..LogoEnd][i] == sig[i]
      {
        assert MatchesAt(sig, cart, LogoStart + i);
      }
    }
  }

  /** 0 out of 48 is reported exactly when no offset of the logo region
      holds its signature byte. */
  lemma ZeroScoreIffNoMatch(sig: Signature, cart: Buffer)
    ensures LogoSuccesses(sig, cart) == 0
            <==> forall n :: LogoStart <= n < LogoEnd ==> sig[n - LogoStart] != cart[n]
  {
    MatchCountExtremes(sig, cart, LogoEnd);
    if LogoSuccesses(sig, cart) != 0 {
      var n :| LogoStart <= n < LogoEnd && MatchesAt(sig, cart, n);
      assert sig[n - LogoStart] == cart[n];
    } else {
      forall n | LogoStart <= n < LogoEnd
        ensures sig[n - LogoStart] != cart[n]
      {
        assert !MatchesAt(sig, cart, n);
      }
    }
  }

  /** The count reads nothing outside the logo region: buffers that agree
      on 0x0104..0x0133 get the same count. */
  lemma {:induction false} MatchCountLocal(sig: Signature, a: Buffer, b: Buffer, hi: int)
    requires LogoStart <= hi <= LogoEnd
    requires a[LogoStart..LogoEnd] == b[LogoStart..LogoEnd]
    ensures MatchCount(sig, a, hi) == MatchCount(sig, b, hi)
    decreases hi
  {
    if hi > LogoStart {
      MatchCountLocal(sig, a, b, hi - 1);
      assert a[LogoStart..LogoEnd][hi - 1 - LogoStart] == b[LogoStart..LogoEnd][hi - 1 - LogoStart];
    }
  }

  /** A subset of a finite set is no larger than the set. */
  lemma SubsetNoLarger(a: set<int>, b: set<int>)
    requires a <= b
    ensures |a| <= |b|
  {
    assert b == a + (b - a);
    assert a * (b - a) == {};
  }

  /** The six offsets where the reference signature holds 0x00 match in
      a buffer whose logo region is all zero. */
  lemma ZeroSignatureBytesMatch(cart: Buffer)
    requires forall n :: LogoStart <= n < LogoEnd ==> cart[n] == 0
    ensures {0x010A, 0x010E, 0x0110, 0x0112, 0x0114, 0x011A} <= MatchSet(NintendoLogo, cart, LogoEnd)
  {
    assert NintendoLogo[6] == NintendoLogo[10] == NintendoLogo[12] == 0;
    assert NintendoLogo[14] == NintendoLogo[16] == NintendoLogo[22] == 0;
  }

  /** An all-zero logo region does not score 0 against the reference
      signature: the signature itself holds 0x00 at six offsets, and each
      of them matches. */
  lemma ZeroBufferScoresAtLeastSix(cart: Buffer)
    requires forall n :: LogoStart <= n < LogoEnd ==> cart[n] == 0
    ensures LogoSuccesses(NintendoLogo, cart) >= 6
  {
    MatchCountIsCardinality(NintendoLogo, cart, LogoEnd);
    ZeroSignatureBytesMatch(cart);
    var zeros := {0x010A, 0x010E, 0x0110, 0x0112, 0x0114, 0x011A};
    assert |zeros| == 6;
    SubsetNoLarger(zeros, MatchSet(NintendoLogo, cart, LogoEnd));
  }
}
