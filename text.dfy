/**
 * The two pieces of Python's string library the log entries rely on:
 * `sep.join(pieces)` and `str(n)` for an integer primary key.
 */
module Text {

  /** Python's `sep.join(pieces)`: the pieces in order, `sep` between neighbours. */
  function Join(sep: string, pieces: seq<string>): string
    decreases |pieces|
  {
    if |pieces| == 0 then ""
    else if |pieces| == 1 then pieces[0]
    else pieces[0] + sep + Join(sep, pieces[1..])
  }

  /** Where the k-th piece starts in `Join(sep, pieces)`. */
  function Offset(sep: string, pieces: seq<string>, k: nat): nat
    requires k <= |pieces|
  {
    if k == 0 then 0 else Offset(sep, pieces, k - 1) + |pieces[k - 1]| + |sep|
  }

  lemma {:induction false} OffsetShift(sep: string, pieces: seq<string>, k: nat)
    requires 1 <= k <= |pieces|
    ensures Offset(sep, pieces, k) == |pieces[0]| + |sep| + Offset(sep, pieces[1..], k - 1)
  {
    if k > 1 {
      OffsetShift(sep, pieces, k - 1);
    }
  }

  /** The joined text is exactly as long as the pieces and the separators between them. */
  lemma {:induction false} JoinLength(sep: string, pieces: seq<string>)
    requires |pieces| > 0
    ensures |Join(sep, pieces)| == Offset(sep, pieces, |pieces| - 1) + |pieces[|pieces| - 1]|
  {
    if |pieces| > 1 {
      JoinLength(sep, pieces[1..]);
      OffsetShift(sep, pieces, |pieces| - 1);
    }
  }

  /** A slice that lies wholly in the second part of a concatenation. */
  lemma SliceOfSecond(a: string, b: string, i: nat, j: nat)
    requires |a| <= i <= j <= |a| + |b|
    ensures (a + b)[i..j] == b[i - |a|..j - |a|]
  {
  }

  /** The first piece opens the joined text, followed by the separator when more pieces follow. */
  lemma JoinFirst(sep: string, pieces: seq<string>)
    requires |pieces| > 0
    ensures |pieces[0]| <= |Join(sep, pieces)|
    ensures Join(sep, pieces)[..|pieces[0]|] == pieces[0]
    ensures |pieces| > 1 ==> |pieces[0]| + |sep| <= |Join(sep, pieces)|
    ensures |pieces| > 1 ==> Join(sep, pieces)[|pieces[0]|..|pieces[0]| + |sep|] == sep
  {
    if |pieces| > 1 {
      var joined := Join(sep, pieces);
      assert joined == pieces[0] + sep + Join(sep, pieces[1..]);
      assert joined[..|pieces[0]|] == pieces[0];
      assert joined[|pieces[0]|..|pieces[0]| + |sep|] == sep;
    }
  }

  /**
   * Every piece stands, unchanged and in its own position, in the joined text,
   * and the separator stands between each piece and the next.
   */
  lemma {:induction false} JoinPieceAt(sep: string, pieces: seq<string>, k: nat)
    requires k < |pieces|
    ensures Offset(sep, pieces, k) + |pieces[k]| <= |Join(sep, pieces)|
    ensures Join(sep, pieces)[Offset(sep, pieces, k)..Offset(sep, pieces, k) + |pieces[k]|] == pieces[k]
    ensures k + 1 < |pieces| ==> Offset(sep, pieces, k + 1) <= |Join(sep, pieces)|
    ensures k + 1 < |pieces| ==>
      Join(sep, pieces)[Offset(sep, pieces, k) + |pieces[k]|..Offset(sep, pieces, k + 1)] == sep
  {
    if k == 0 {
      JoinFirst(sep, pieces);
    } else {
      var tail := pieces[1..];
      JoinPieceAt(sep, tail, k - 1);
      JoinLaterPiece(sep, pieces, k);
    }
  }

  /** The step of `JoinPieceAt` past the first piece: everything shifts by the first piece and a separator. */
  lemma JoinLaterPiece(sep: string, pieces: seq<string>, k: nat)
    requires 0 < k < |pieces|
    requires var tail := pieces[1..];
             var lo := Offset(sep, tail, k - 1);
      && lo + |tail[k - 1]| <= |Join(sep, tail)|
      && Join(sep, tail)[lo..lo + |tail[k - 1]|] == tail[k - 1]
      && (k < |tail| ==> Offset(sep, tail, k) <= |Join(sep, tail)|)
      && (k < |tail| ==> Join(sep, tail)[lo + |tail[k - 1]|..Offset(sep, tail, k)] == sep)
    ensures Offset(sep, pieces, k) + |pieces[k]| <= |Join(sep, pieces)|
    ensures Join(sep, pieces)[Offset(sep, pieces, k)..Offset(sep, pieces, k) + |pieces[k]|] == pieces[k]
    ensures k + 1 < |pieces| ==> Offset(sep, pieces, k + 1) <= |Join(sep, pieces)|
    ensures k + 1 < |pieces| ==>
      Join(sep, pieces)[Offset(sep, pieces, k) + |pieces[k]|..Offset(sep, pieces, k + 1)] == sep
  {
    var tail := pieces[1..];
    var head := pieces[0] + sep;
    var rest := Join(sep, tail);
    assert Join(sep, pieces) == head + rest;
    OffsetShift(sep, pieces, k);
    assert tail[k - 1] == pieces[k];
    var lo := Offset(sep, tail, k - 1);
    SliceOfSecond(head, rest, |head| + lo, |head| + lo + |pieces[k]|);
    if k + 1 < |pieces| {
      OffsetShift(sep, pieces, k + 1);
      SliceOfSecond(head, rest, |head| + lo + |pieces[k]|, |head| + Offset(sep, tail, k));
    }
  }

  /**
   * The layout of a joined text: the k-th piece at its offset, the separator after it
   * unless it is the last, and the text ending right after the last piece.
   */
  predicate JoinLayoutAt(sep: string, pieces: seq<string>, k: nat, text: string)
    requires k < |pieces|
  {
    var at := Offset(sep, pieces, k);
    && |text| == Offset(sep, pieces, |pieces| - 1) + |pieces[|pieces| - 1]|
    && at + |pieces[k]| <= |text|
    && text[at..at + |pieces[k]|] == pieces[k]
    && (k + 1 < |pieces| ==> Offset(sep, pieces, k + 1) <= |text|)
    && (k + 1 < |pieces| ==> text[at + |pieces[k]|..Offset(sep, pieces, k + 1)] == sep)
  }

  lemma JoinLayout(sep: string, pieces: seq<string>, k: nat)
    requires k < |pieces|
    ensures JoinLayoutAt(sep, pieces, k, Join(sep, pieces))
  {
    JoinPieceAt(sep, pieces, k);
    JoinLength(sep, pieces);
  }

  /** The character of a decimal digit. */
  function DigitChar(d: nat): (c: char)
    requires d < 10
    ensures '0' <= c <= '9' && c as int - '0' as int == d
  {
    "0123456789"[d]
  }

  /** Python's `str(n)` for a natural number: its decimal digits, most significant first. */
  function NatText(n: nat): string
    decreases n
  {
    if n < 10 then [DigitChar(n)] else NatText(n / 10) + [DigitChar(n % 10)]
  }

  /** Python's `str(i)` for an integer: a minus sign before the digits of a negative one. */
  function IntText(i: int): string {
    if i < 0 then "-" + NatText(-i) else NatText(i)
  }

  /** Reads decimal digits back; the inverse of `NatText`. */
  function ParseNat(s: string): nat
    decreases |s|
  {
    if |s| == 0 then 0
    else ParseNat(s[..|s| - 1]) * 10 + (if '0' <= s[|s| - 1] <= '9' then s[|s| - 1] as int - '0' as int else 0)
  }

  /** Reads an optionally signed decimal number back; the inverse of `IntText`. */
  function ParseInt(s: string): int {
    if |s| > 0 && s[0] == '-' then -(ParseNat(s[1..]) as int) else ParseNat(s)
  }

  lemma {:induction false} ParseNatText(n: nat)
    ensures ParseNat(NatText(n)) == n
    ensures |NatText(n)| > 0 && '0' <= NatText(n)[0] <= '9'
  {
    if n >= 10 {
      ParseNatText(n / 10);
      var s := NatText(n);
      assert s[..|s| - 1] == NatText(n / 10);
      assert s[0] == NatText(n / 10)[0];
    }
  }

  /** Text after a minus sign reads as the negated number. */
  lemma ParseNegative(digits: string)
    ensures ParseInt("-" + digits) == -(ParseNat(digits) as int)
  {
    assert ("-" + digits)[1..] == digits;
  }

  /** Rendering an integer key as text loses nothing: it reads back as the same integer. */
  lemma IntTextRoundTrip(i: int)
    ensures ParseInt(IntText(i)) == i
  {
    if i < 0 {
      ParseNatText(-i);
      ParseNegative(NatText(-i));
    } else {
      ParseNatText(i);
    }
  }
}
