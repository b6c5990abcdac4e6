/** IPv4 addresses as text: `InetAddress::ipToString` and `stringToIp`, built on `split` and `toDec`
    (the IPv4 form of section 3.2.2 of RFC 3986). */
module InetText {
  import opened Decimal
  import Algorithms

  // ----- split -----

  /** A half-open range of indices. */
  datatype Piece = Piece(lo: nat, hi: nat)

  /** The maximal pieces of `s` without `pivot`, in order, from `at` on. */
  function Pieces(s: string, pivot: char, at: nat): seq<Piece>
    requires at <= |s|
    decreases |s| - at
  {
    var lo := SkipPivots(s, pivot, at);
    var hi := SkipOthers(s, pivot, lo);
    if lo == hi then [] else [Piece(lo, hi)] + Pieces(s, pivot, hi)
  }

  function SkipPivots(s: string, pivot: char, at: nat): (lo: nat)
    requires at <= |s|
    ensures at <= lo <= |s|
    ensures forall i :: at <= i < lo ==> s[i] == pivot
    ensures lo < |s| ==> s[lo] != pivot
    decreases |s| - at
  {
    if at < |s| && s[at] == pivot then SkipPivots(s, pivot, at + 1) else at
  }

  function SkipOthers(s: string, pivot: char, at: nat): (hi: nat)
    requires at <= |s|
    ensures at <= hi <= |s|
    ensures forall i :: at <= i < hi ==> s[i] != pivot
    ensures hi < |s| ==> s[hi] == pivot
    decreases |s| - at
  {
    if at < |s| && s[at] != pivot then SkipOthers(s, pivot, at + 1) else at
  }

  /** `split`: what every piece is. */
  ghost predicate IsPiece(s: string, pivot: char, piece: Piece) {
    && piece.lo < piece.hi <= |s|
    && (forall i :: piece.lo <= i < piece.hi ==> s[i] != pivot)
    && (piece.hi < |s| ==> s[piece.hi] == pivot)
  }

  /** Increasing ranges behind `at`, free of the pivot, each ending at a pivot or at the end. */
  ghost predicate Separated(s: string, pivot: char, at: nat, ps: seq<Piece>) {
    && (forall k :: 0 <= k < |ps| ==> at <= ps[k].lo && IsPiece(s, pivot, ps[k]))
    && (forall k :: 0 < k < |ps| ==> ps[k - 1].hi < ps[k].lo)
  }

  lemma {:induction false} PiecesAreMaximal(s: string, pivot: char, at: nat)
    requires at <= |s|
    ensures Separated(s, pivot, at, Pieces(s, pivot, at))
    decreases |s| - at
  {
    var lo := SkipPivots(s, pivot, at);
    var hi := SkipOthers(s, pivot, lo);
    if lo < hi {
      PiecesAreMaximal(s, pivot, hi);
      if hi < |s| {
        PiecesAreMaximal(s, pivot, hi + 1);
        PivotSkipped(s, pivot, hi);
        ConsSeparated(s, pivot, at, Piece(lo, hi), Pieces(s, pivot, hi));
      }
    }
  }

  lemma PivotSkipped(s: string, pivot: char, at: nat)
    requires at < |s| && s[at] == pivot
    ensures Pieces(s, pivot, at) == Pieces(s, pivot, at + 1)
  {
  }

  lemma ConsSeparated(s: string, pivot: char, at: nat, p: Piece, ps: seq<Piece>)
    requires at <= p.lo && IsPiece(s, pivot, p) && Separated(s, pivot, p.hi + 1, ps)
    ensures Separated(s, pivot, at, [p] + ps)
  {
  }

  /** Every character that is not the pivot lies in a piece. */
  lemma {:induction false} PiecesCover(s: string, pivot: char, at: nat, i: nat)
    requires at <= i < |s| && s[i] != pivot
    ensures exists k :: 0 <= k < |Pieces(s, pivot, at)|
                        && Pieces(s, pivot, at)[k].lo <= i < Pieces(s, pivot, at)[k].hi
    decreases |s| - at
  {
    var lo := SkipPivots(s, pivot, at);
    var hi := SkipOthers(s, pivot, lo);
    var ps := Pieces(s, pivot, at);
    if i < hi {
      assert ps[0].lo <= i < ps[0].hi;
    } else {
      PiecesCover(s, pivot, hi, i);
      var rest := Pieces(s, pivot, hi);
      var k :| 0 <= k < |rest| && rest[k].lo <= i < rest[k].hi;
      assert ps[k + 1] == rest[k];
    }
  }

  /** `split(str, length, pivot)` */
  method Split(s: string, pivot: char) returns (result: seq<Piece>)
    ensures result == Pieces(s, pivot, 0)
  {
    result := [];
    var lo, hi := 0, 0;
    while hi < |s|
      invariant lo == hi <= |s|
      invariant result + Pieces(s, pivot, hi) == Pieces(s, pivot, 0)
      decreases |s| - hi
    {
      ghost var start := hi;
      while hi < |s| && s[hi] == pivot
        invariant start <= lo == hi <= |s|
        invariant SkipPivots(s, pivot, hi) == SkipPivots(s, pivot, start)
      {
        lo, hi := lo + 1, hi + 1;
      }
      assert lo == SkipPivots(s, pivot, start);
      while hi < |s| && s[hi] != pivot
        invariant lo <= hi <= |s|
        invariant SkipOthers(s, pivot, hi) == SkipOthers(s, pivot, lo)
      {
        hi := hi + 1;
      }
      assert hi == SkipOthers(s, pivot, lo);
      if lo < hi {
        result := result + [Piece(lo, hi)];
      }
      lo := hi;
    }
    assert Pieces(s, pivot, |s|) == [];
  }

  // ----- toDec -----

  /** `toDec` of an unsigned type with `modulus` values. */
  function ToDec(s: string, modulus: nat): (n: nat)
    requires modulus > 0
    ensures n < modulus
  {
    if |s| == 0 then 0
    else (10 * ToDec(s[..|s| - 1], modulus) + DigitValue(s[|s| - 1])) % modulus
  }

  lemma SmallRemainder(n: nat, modulus: nat)
    requires n < modulus
    ensures n % modulus == n
  {
  }

  lemma ToDecAppend(s: string, c: char, modulus: nat)
    requires modulus > 0
    ensures ToDec(s + [c], modulus) == (10 * ToDec(s, modulus) + DigitValue(c)) % modulus
  {
    assert (s + [c])[..|s|] == s;
  }

  /** Without overflow it reads the text. */
  lemma {:induction false} ToDecReadsText(n: nat, modulus: nat)
    requires n < modulus
    ensures ToDec(Text(n), modulus) == n
  {
    SmallRemainder(n, modulus);
    if n < 10 {
      assert Text(n) == "" + [Digit(n)];
      ToDecAppend("", Digit(n), modulus);
    } else {
      var front, last := Text(n / 10), Digit(n % 10);
      ToDecReadsText(n / 10, modulus);
      ToDecAppend(front, last, modulus);
      assert 10 * ToDec(front, modulus) + DigitValue(last) == n;
      assert Text(n) == front + [last];
    }
  }

  // ----- addresses -----

  const TWO_32 := 0x1_0000_0000

  /** `(addr >> (chunk << 3)) & 0xff` of an unsigned address. */
  function Octet(addr: nat, chunk: nat): (o: nat)
    ensures o < 256
  {
    if chunk == 0 then addr % 256 else Octet(addr / 256, chunk - 1)
  }

  /** Dotted-decimal text. */
  function Dotted(addr: nat): string {
    Text(Octet(addr, 3)) + "." + Text(Octet(addr, 2)) + "." + Text(Octet(addr, 1)) + "." + Text(Octet(addr, 0))
  }

  method IpToString(addr: nat) returns (s: string)
    requires addr < TWO_32
    ensures s == Dotted(addr)
  {
    s := "";
    var chunk := 3;
    while chunk != -1
      invariant -1 <= chunk <= 3
      invariant s == if chunk == 3 then ""
                     else if chunk == 2 then Text(Octet(addr, 3))
                     else if chunk == 1 then Text(Octet(addr, 3)) + "." + Text(Octet(addr, 2))
                     else if chunk == 0 then
                       Text(Octet(addr, 3)) + "." + Text(Octet(addr, 2)) + "." + Text(Octet(addr, 1))
                     else Dotted(addr)
      decreases chunk
    {
      if 3 > chunk {
        s := s + ".";
      }
      s := s + Text(Octet(addr, chunk));
      chunk := chunk - 1;
    }
  }

  /** `(ip << 8) | dec` on 32 bits. */
  function Shifted(ip: nat, dec: nat): nat {
    Algorithms.OrSign(ip * 256 % TWO_32, dec);
    Algorithms.Or(ip * 256 % TWO_32, dec)
  }

  function FoldIp(s: string, pieces: seq<Piece>): nat
    requires forall k :: 0 <= k < |pieces| ==> pieces[k].lo <= pieces[k].hi <= |s|
  {
    if |pieces| == 0 then 0
    else
      var ip := FoldIp(s, pieces[..|pieces| - 1]);
      var p := pieces[|pieces| - 1];
      Shifted(ip, ToDec(s[p.lo..p.hi], TWO_32))
  }

  function PiecesOf(s: string, pivot: char): (ps: seq<Piece>)
    ensures forall k :: 0 <= k < |ps| ==> ps[k].lo <= ps[k].hi <= |s|
  {
    PiecesAreMaximal(s, pivot, 0);
    var ps := Pieces(s, pivot, 0);
    assert forall k :: 0 <= k < |ps| ==> IsPiece(s, pivot, ps[k]);
    ps
  }

  method StringToIp(s: string) returns (ip: nat)
    ensures ip == FoldIp(s, PiecesOf(s, '.'))
  {
    var pivots := Split(s, '.');
    assert pivots == PiecesOf(s, '.');
    ip := 0;
    for i := 0 to |pivots|
      invariant ip == FoldIp(s, pivots[..i])
    {
      assert pivots[..i + 1][..i] == pivots[..i];
      var p := pivots[i];
      ip := Shifted(ip, ToDec(s[p.lo..p.hi], TWO_32));
    }
    assert pivots[..|pivots|] == pivots;
  }

  // ----- the round trip -----

  /** A word that starts at `at` and ends at a pivot or at the end is the next piece. */
  lemma {:induction false} SkipWord(s: string, pivot: char, at: nat, hi: nat)
    requires at <= hi <= |s|
    requires forall i :: at <= i < hi ==> s[i] != pivot
    requires hi < |s| ==> s[hi] == pivot
    ensures SkipOthers(s, pivot, at) == hi
    decreases hi - at
  {
    if at < hi {
      SkipWord(s, pivot, at + 1, hi);
    }
  }

  /** The word behind `before` is the next piece. */
  lemma WordIsSkipped(s: string, pivot: char, before: string, word: string, after: string)
    requires s == before + word + after && |word| > 0 && pivot !in word
    requires |after| > 0 ==> after[0] == pivot
    ensures s[|before|..|before| + |word|] == word
    ensures SkipOthers(s, pivot, |before|) == |before| + |word|
    ensures s[|before|] != pivot
  {
    var lo, hi := |before|, |before| + |word|;
    forall i | lo <= i < hi ensures s[i] != pivot {
      assert s[i] == word[i - lo];
    }
    assert |after| > 0 ==> s[hi] == after[0];
    SkipWord(s, pivot, lo, hi);
  }

  lemma WordIsLastPiece(s: string, pivot: char, before: string, word: string)
    requires s == before + word && |word| > 0 && pivot !in word
    ensures s[|before|..|before| + |word|] == word
    ensures Pieces(s, pivot, |before|) == [Piece(|before|, |before| + |word|)] + []
  {
    assert s == before + word + "";
    WordIsSkipped(s, pivot, before, word, "");
    assert Pieces(s, pivot, |s|) == [];
  }

  lemma WordIsNextPiece(s: string, pivot: char, before: string, word: string, rest: string)
    requires s == before + word + [pivot] + rest && |word| > 0 && pivot !in word
    ensures s[|before|..|before| + |word|] == word
    ensures Pieces(s, pivot, |before|)
         == [Piece(|before|, |before| + |word|)] + Pieces(s, pivot, |before + word + [pivot]|)
  {
    var lo, hi := |before|, |before| + |word|;
    assert hi < |s| && s[lo] != pivot && SkipOthers(s, pivot, lo) == hi && s[lo..hi] == word by {
      AssociateAround(before, word, pivot, rest);
      WordIsSkipped(s, pivot, before, word, [pivot] + rest);
    }
    assert s[hi] == pivot;
    PieceAndPivot(s, pivot, lo, hi);
  }

  lemma AssociateAround(before: string, word: string, pivot: char, rest: string)
    ensures before + word + [pivot] + rest == before + word + ([pivot] + rest)
  {
  }

  lemma PieceAndPivot(s: string, pivot: char, lo: nat, hi: nat)
    requires lo < hi < |s| && s[lo] != pivot && s[hi] == pivot && SkipOthers(s, pivot, lo) == hi
    ensures Pieces(s, pivot, lo) == [Piece(lo, hi)] + Pieces(s, pivot, hi + 1)
  {
    PivotSkipped(s, pivot, hi);
  }

  /** Text of a number: digits only. */
  lemma TextIsWord(n: nat)
    ensures |Text(n)| > 0 && '.' !in Text(n) && ':' !in Text(n)
  {
    TextReadsBack(n);
  }

  /** How often `c` occurs. */
  function Occurrences(s: string, c: char): nat {
    multiset(s)[c]
  }

  /** The value of byte `k` of an address, counted from the right. */
  function ByteAt(addr: nat, k: nat): nat {
    addr / (if k == 0 then 1 else if k == 1 then 0x100 else if k == 2 then 0x1_0000 else 0x100_0000) % 256
  }

  lemma OctetIsByte(addr: nat, k: nat)
    requires k <= 3
    ensures Octet(addr, k) == ByteAt(addr, k)
  {
    assert addr / 256 / 256 == addr / 0x1_0000;
    assert addr / 0x1_0000 / 256 == addr / 0x100_0000;
    if k > 0 {
      assert Octet(addr, k) == Octet(addr / 256, k - 1);
    }
    if k > 1 {
      assert Octet(addr / 256, k - 1) == Octet(addr / 256 / 256, k - 2);
    }
    if k > 2 {
      assert Octet(addr / 256 / 256, k - 2) == Octet(addr / 256 / 256 / 256, k - 3);
    }
  }

  /** The word for a byte: digits without a leading zero that denote it. */
  ghost predicate IsWordFor(word: string, n: nat) {
    && |word| > 0 && (forall i :: 0 <= i < |word| ==> IsDigit(word[i]))
    && Value(word) == n && (word[0] == '0' ==> |word| == 1)
  }

  lemma TextIsWordFor(n: nat)
    ensures IsWordFor(Text(n), n)
  {
    TextReadsBack(n);
  }

  lemma ByteWord(addr: nat, k: nat)
    requires k <= 3
    ensures IsWordFor(Text(Octet(addr, k)), ByteAt(addr, k)) && '.' !in Text(Octet(addr, k))
  {
    OctetIsByte(addr, k);
    TextIsWordFor(Octet(addr, k));
    TextIsWord(Octet(addr, k));
  }

  /** The text of an address is four decimal words with a dot between each two: from left to right the
      bytes from the highest to the lowest.  So it has three dots, and none at either end. */
  lemma DottedIsFourBytes(addr: nat) returns (a: string, b: string, c: string, d: string)
    ensures Dotted(addr) == a + "." + b + "." + c + "." + d
    ensures IsWordFor(a, ByteAt(addr, 3)) && IsWordFor(b, ByteAt(addr, 2))
    ensures IsWordFor(c, ByteAt(addr, 1)) && IsWordFor(d, ByteAt(addr, 0))
    ensures Occurrences(Dotted(addr), '.') == 3
    ensures var s := Dotted(addr); |s| >= 7 && s[0] != '.' && s[|s| - 1] != '.'
  {
    a, b, c, d := Text(Octet(addr, 3)), Text(Octet(addr, 2)), Text(Octet(addr, 1)), Text(Octet(addr, 0));
    ByteWord(addr, 3);
    ByteWord(addr, 2);
    ByteWord(addr, 1);
    ByteWord(addr, 0);
    DotsBetween(a, b, c, d);
  }

  lemma DotsBetween(a: string, b: string, c: string, d: string)
    requires |a| > 0 && |b| > 0 && |c| > 0 && |d| > 0
    requires '.' !in a && '.' !in b && '.' !in c && '.' !in d
    ensures var s := a + "." + b + "." + c + "." + d;
            && Occurrences(s, '.') == 3 && |s| >= 7 && s[0] != '.' && s[|s| - 1] != '.'
  {
    var s := a + "." + b + "." + c + "." + d;
    assert multiset(s) == multiset(a) + multiset(b) + multiset(c) + multiset(d) + multiset(['.', '.', '.']);
    assert s[0] == a[0] && s[|s| - 1] == d[|d| - 1];
  }

  /** Words with a pivot between each two. */
  function Join(words: seq<string>, pivot: char): string {
    if |words| == 0 then ""
    else if |words| == 1 then words[0]
    else words[0] + [pivot] + Join(words[1..], pivot)
  }

  ghost predicate AreWords(words: seq<string>, pivot: char) {
    forall k :: 0 <= k < |words| ==> |words[k]| > 0 && pivot !in words[k]
  }

  /** The pieces are these words. */
  ghost predicate Cuts(s: string, ps: seq<Piece>, words: seq<string>) {
    && |ps| == |words|
    && forall k :: 0 <= k < |ps| ==> ps[k].lo <= ps[k].hi <= |s| && s[ps[k].lo..ps[k].hi] == words[k]
  }

  /** Splitting undoes joining, for all non-empty words without the pivot. */
  lemma {:induction false} SplitUndoesJoin(s: string, pivot: char, before: string, words: seq<string>)
    requires s == before + Join(words, pivot) && |words| > 0 && AreWords(words, pivot)
    ensures Cuts(s, Pieces(s, pivot, |before|), words)
    decreases |words|
  {
    var word, ps := words[0], Pieces(s, pivot, |before|);
    var p := Piece(|before|, |before| + |word|);
    if |words| == 1 {
      WordIsLastPiece(s, pivot, before, word);
      ConsCuts(s, p, [], words, ps);
    } else {
      var rest := Join(words[1..], pivot);
      var next := before + word + [pivot];
      Regroup(before, word, pivot, rest);
      WordIsNextPiece(s, pivot, before, word, rest);
      SplitUndoesJoin(s, pivot, next, words[1..]);
      ConsCuts(s, p, Pieces(s, pivot, |next|), words, ps);
    }
  }

  lemma Regroup(before: string, word: string, pivot: char, rest: string)
    ensures before + (word + [pivot] + rest) == before + word + [pivot] + rest
  {
  }

  lemma ConsCuts(s: string, p: Piece, ps: seq<Piece>, words: seq<string>, all: seq<Piece>)
    requires |words| > 0 && p.lo <= p.hi <= |s| && s[p.lo..p.hi] == words[0]
    requires Cuts(s, ps, words[1..]) && all == [p] + ps
    ensures Cuts(s, all, words)
  {
  }

  lemma JoinFour(a: string, b: string, c: string, d: string)
    ensures Join([a, b, c, d], '.') == a + "." + b + "." + c + "." + d
  {
    var words := [a, b, c, d];
    assert words[1..] == [b, c, d] && [b, c, d][1..] == [c, d] && [c, d][1..] == [d];
    assert Join([c, d], '.') == c + "." + d;
    assert Join([b, c, d], '.') == b + "." + Join([c, d], '.');
    assert Join(words, '.') == a + "." + Join([b, c, d], '.');
  }

  lemma {:induction false} OrOfDisjoint(a: nat, b: nat, k: nat)
    requires b < Algorithms.Pow2(k)
    ensures Algorithms.Or(a * Algorithms.Pow2(k), b) == a * Algorithms.Pow2(k) + b
    decreases k
  {
    var p := Algorithms.Pow2(k);
    if k == 0 {
      assert a * p == a && b == 0;
      OrZero(a);
    } else {
      var h := Algorithms.Pow2(k - 1);
      assert a * p == 2 * (a * h);
      OrOfDisjoint(a, b / 2, k - 1);
    }
  }

  lemma {:induction false} OrZero(a: nat)
    ensures Algorithms.Or(a, 0) == a
  {
    if a > 1 {
      OrZero(a / 2);
    }
  }

  /** Shifting in an octet. */
  lemma ShiftOctet(ip: nat, o: nat)
    requires ip < 0x100_0000 && o < 256
    ensures Shifted(ip, o) == 256 * ip + o
  {
    assert Algorithms.Pow2(8) == 256;
    SmallRemainder(ip * 256, TWO_32);
    OrOfDisjoint(ip, o, 8);
  }

  lemma OctetsRebuild(addr: nat)
    requires addr < TWO_32
    ensures 256 * (256 * (256 * Octet(addr, 3) + Octet(addr, 2)) + Octet(addr, 1)) + Octet(addr, 0) == addr
  {
    assert Octet(addr, 1) == addr / 256 % 256;
    assert Octet(addr, 2) == addr / 256 / 256 % 256;
    assert Octet(addr, 3) == addr / 256 / 256 / 256 % 256;
  }

  /** `stringToIp(ipToString(a)) == a` for every 32-bit address. */
  lemma IpRoundTrip(addr: nat)
    requires addr < TWO_32
    ensures FoldIp(Dotted(addr), PiecesOf(Dotted(addr), '.')) == addr
  {
    var a, b, c, d := Octet(addr, 3), Octet(addr, 2), Octet(addr, 1), Octet(addr, 0);
    FoldDotted(Dotted(addr), a, b, c, d);
    ShiftFour(a, b, c, d);
    OctetsRebuild(addr);
  }

  lemma FoldDotted(s: string, a: nat, b: nat, c: nat, d: nat)
    requires a < 256 && b < 256 && c < 256 && d < 256
    requires s == Text(a) + "." + Text(b) + "." + Text(c) + "." + Text(d)
    ensures FoldIp(s, PiecesOf(s, '.')) == Shifted(Shifted(Shifted(Shifted(0, a), b), c), d)
  {
    TextIsWord(a);
    TextIsWord(b);
    TextIsWord(c);
    TextIsWord(d);
    var words := [Text(a), Text(b), Text(c), Text(d)];
    JoinFour(Text(a), Text(b), Text(c), Text(d));
    SplitUndoesJoin(s, '.', "", words);
    var ps := PiecesOf(s, '.');
    assert Cuts(s, ps, words);
    ToDecReadsText(a, TWO_32);
    ToDecReadsText(b, TWO_32);
    ToDecReadsText(c, TWO_32);
    ToDecReadsText(d, TWO_32);
    FoldFour(s, ps, a, b, c, d);
  }

  lemma ShiftFour(a: nat, b: nat, c: nat, d: nat)
    requires a < 256 && b < 256 && c < 256 && d < 256
    ensures Shifted(Shifted(Shifted(Shifted(0, a), b), c), d) == 256 * (256 * (256 * a + b) + c) + d
  {
    ShiftOctet(0, a);
    ShiftOctet(a, b);
    ShiftOctet(256 * a + b, c);
    ShiftOctet(256 * (256 * a + b) + c, d);
  }

  lemma FoldFour(s: string, ps: seq<Piece>, a: nat, b: nat, c: nat, d: nat)
    requires |ps| == 4 && forall k :: 0 <= k < 4 ==> ps[k].lo <= ps[k].hi <= |s|
    requires ToDec(s[ps[0].lo..ps[0].hi], TWO_32) == a && ToDec(s[ps[1].lo..ps[1].hi], TWO_32) == b
    requires ToDec(s[ps[2].lo..ps[2].hi], TWO_32) == c && ToDec(s[ps[3].lo..ps[3].hi], TWO_32) == d
    ensures FoldIp(s, ps) == Shifted(Shifted(Shifted(Shifted(0, a), b), c), d)
  {
    assert ps[..3][..2] == ps[..2] && ps[..2][..1] == ps[..1] && ps[..1][..0] == [];
    assert FoldIp(s, ps[..1]) == Shifted(0, a);
    assert FoldIp(s, ps[..2]) == Shifted(Shifted(0, a), b);
    assert FoldIp(s, ps[..3]) == Shifted(Shifted(Shifted(0, a), b), c);
  }

  /** `toString`: address, colon and port. */
  function Endpoint(addr: nat, port: nat): string {
    Dotted(addr) + ":" + Text(port)
  }

  /** The constructor from a string: it asserts that there are two pieces. */
  function ParseEndpoint(s: string): (r: (nat, nat))
    requires |PiecesOf(s, ':')| == 2
  {
    var ps := PiecesOf(s, ':');
    var host := s[ps[0].lo..ps[0].hi];
    (FoldIp(host, PiecesOf(host, '.')), ToDec(s[ps[1].lo..ps[1].hi], 65536))
  }

  lemma DottedIsWord(addr: nat)
    ensures |Dotted(addr)| > 0 && ':' !in Dotted(addr)
  {
    TextIsWord(Octet(addr, 3));
    TextIsWord(Octet(addr, 2));
    TextIsWord(Octet(addr, 1));
    TextIsWord(Octet(addr, 0));
  }

  /** An endpoint survives printing and parsing, for every address and port. */
  lemma EndpointRoundTrip(addr: nat, port: nat)
    requires addr < TWO_32 && port < 65536
    ensures |PiecesOf(Endpoint(addr, port), ':')| == 2
    ensures ParseEndpoint(Endpoint(addr, port)) == (addr, port)
  {
    DottedIsWord(addr);
    TextIsWord(port);
    var words := [Dotted(addr), Text(port)];
    assert words[1..] == [Text(port)];
    SplitUndoesJoin(Endpoint(addr, port), ':', "", words);
    assert Cuts(Endpoint(addr, port), PiecesOf(Endpoint(addr, port), ':'), words);
    IpRoundTrip(addr);
    ToDecReadsText(port, 65536);
  }
}
