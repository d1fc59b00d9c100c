/**
 * Helpers shared by the H.264 and HEVC packetizers: removing an Annex B
 * start code in front of a NAL unit (the byte-stream format of Annex B of
 * ITU-T H.264) and turning a NAL unit payload into its raw byte sequence
 * payload by dropping every emulation_prevention_three_byte (section 7.4.1
 * of ITU-T H.264, section 7.4.2 of ITU-T H.265).
 *
 * A C pointer with its size becomes an array, an offset into it and a
 * length; the out-pointers `*pp_data` / `*pi_data` become returned values.
 */
module HxxxNal {

  type byte = bv8

  /** annexb_startcode4; annexb_startcode3 is its last three bytes. */
  const StartCode4: seq<byte> := [0x00, 0x00, 0x00, 0x01]
  const StartCode3: seq<byte> := StartCode4[1..]

  /**
   * The number of bytes hxxx_strip_AnnexB_startcode removes from the front
   * of `s`: 4 for a four-byte start code, 3 for a three-byte one, 0 when it
   * refuses (fewer than 4 bytes, a nonzero first byte, or no start code).
   */
  function StartCodeLength(s: seq<byte>): (n: nat)
    ensures n == 0 || n == 3 || n == 4
    ensures n == 4 <==> |s| >= 4 && s[..4] == StartCode4
    ensures n == 3 <==> |s| >= 4 && s[..3] == StartCode3
    ensures n != 0 ==> n <= |s|
  {
    if |s| < 4 || s[0] != 0 then 0
    else if s[1] == 0x00 && s[2] == 0x00 && s[3] == 0x01 then 4
    else if s[1] == 0x00 && s[2] == 0x01 then 3
    else 0
  }

  /**
   * hxxx_strip_AnnexB_startcode: the data starts at `p` in `buf` and is
   * `size` bytes long. On success the returned pointer and size have moved
   * past the start code; on failure they are the ones passed in.
   */
  method StripAnnexBStartcode(buf: array<byte>, p: nat, size: nat)
    returns (stripped: bool, p': nat, size': nat)
    requires p + size <= buf.Length
    ensures (size < 4 || buf[p] != 0) ==> !stripped
    ensures stripped <==> StartCodeLength(buf[p..p + size]) != 0
    ensures p' == p + StartCodeLength(buf[p..p + size])
    ensures size' == size - StartCodeLength(buf[p..p + size])
    ensures !stripped ==> p' == p && size' == size
    ensures buf[p'..p' + size'] == buf[p..p + size][p' - p..]
  {
    if size < 4 || buf[p] != 0 {
      return false, p, size;
    }
    if buf[p + 1] == 0x00 && buf[p + 2] == 0x00 && buf[p + 3] == 0x01 {
      // skip the four-byte form first
      stripped, p', size' := true, p + 4, size - 4;
    } else if buf[p + 1] == 0x00 && buf[p + 2] == 0x01 {
      stripped, p', size' := true, p + 3, size - 3;
    } else {
      return false, p, size;
    }
  }

  /** Stripping a start code put in front of a payload gives the payload back. */
  lemma StripFourByteStartCode(payload: seq<byte>)
    ensures StartCodeLength(StartCode4 + payload) == 4
    ensures (StartCode4 + payload)[4..] == payload
  {
    assert (StartCode4 + payload)[..4] == StartCode4;
  }

  /**
   * The three-byte form is recognised only in front of a nonempty payload,
   * because fewer than four bytes are always refused.
   */
  lemma StripThreeByteStartCode(payload: seq<byte>)
    ensures StartCodeLength(StartCode3 + payload) == (if |payload| >= 1 then 3 else 0)
    ensures (StartCode3 + payload)[3..] == payload
  {
    if |payload| >= 1 {
      assert (StartCode3 + payload)[..3] == StartCode3;
    }
  }

  /*
   * Emulation prevention.
   */

  /** A `00 00 03` triple starts at `i` of `s` and at least one byte follows it. */
  predicate EscapeAt(s: seq<byte>, i: nat)
  {
    i + 3 < |s| && s[i] == 0 && s[i + 1] == 0 && s[i + 2] == 3
  }

  /**
   * The raw byte sequence payload: scanning from the front, a `00 00 03`
   * triple with at least one byte after it becomes `00 00`; every other byte
   * is copied. Escape triples in the last three bytes are kept.
   */
  function Rbsp(s: seq<byte>): seq<byte>
  {
    if EscapeAt(s, 0) then [0, 0] + Rbsp(s[3..])
    else if s == [] then []
    else [s[0]] + Rbsp(s[1..])
  }

  /** One step of the scan in Ep3bToRbsp over an escape triple at `i`. */
  lemma RbspEscapeStep(s: seq<byte>, i: nat, done: seq<byte>)
    requires EscapeAt(s, i)
    ensures done + Rbsp(s[i..]) == (done + [0, 0]) + Rbsp(s[i + 3..])
  {
    assert EscapeAt(s[i..], 0);
    assert s[i..][3..] == s[i + 3..];
  }

  /** One step of the scan in Ep3bToRbsp copying the byte at `i`. */
  lemma RbspCopyStep(s: seq<byte>, i: nat, done: seq<byte>)
    requires i < |s| && !EscapeAt(s, i)
    ensures done + Rbsp(s[i..]) == (done + [s[i]]) + Rbsp(s[i + 1..])
  {
    assert !EscapeAt(s[i..], 0);
    assert s[i..][1..] == s[i + 1..];
  }

  /** The payload never grows. */
  lemma {:induction false} RbspNoLonger(s: seq<byte>)
    ensures |Rbsp(s)| <= |s|
  {
    if EscapeAt(s, 0) {
      RbspNoLonger(s[3..]);
    } else if s != [] {
      RbspNoLonger(s[1..]);
    }
  }

  /** Some escape triple is present somewhere in `s`. */
  predicate HasEscape(s: seq<byte>)
  {
    exists i :: 0 <= i < |s| && EscapeAt(s, i)
  }

  /**
   * The payload is the input unchanged exactly when the input holds no
   * escape triple; otherwise it is strictly shorter.
   */
  lemma {:induction false} RbspIdentity(s: seq<byte>)
    ensures !HasEscape(s) ==> Rbsp(s) == s
    ensures HasEscape(s) ==> |Rbsp(s)| < |s|
    ensures Rbsp(s) == s <==> !HasEscape(s)
  {
    if EscapeAt(s, 0) {
      RbspNoLonger(s[3..]);
    } else if s != [] {
      var t := s[1..];
      RbspIdentity(t);
      if HasEscape(s) {
        var i :| 0 <= i < |s| && EscapeAt(s, i);
        assert i != 0;
        assert EscapeAt(t, i - 1);
      } else {
        forall i | 0 <= i < |t| ensures !EscapeAt(t, i) {
          assert EscapeAt(t, i) ==> EscapeAt(s, i + 1);
        }
      }
    }
  }

  /**
   * hxxx_ep3b_to_rbsp: `src` holds `n` bytes (a null `src` gives a null
   * result). The result is a new buffer of `n` bytes whose first `len`
   * bytes are the raw byte sequence payload.
   */
  method Ep3bToRbsp(src: array?<byte>, n: nat) returns (dst: array?<byte>, len: nat)
    requires src != null ==> n <= src.Length
    ensures src == null ==> dst == null
    ensures src != null ==> dst != null && fresh(dst) && dst.Length == n
    ensures src != null ==> len <= n && dst[..len] == Rbsp(src[..n])
  {
    if src == null {
      return null, 0;
    }
    ghost var s := src[..n];
    var out := new byte[n];
    var i, j := 0, 0;
    while i < n
      invariant 0 <= j <= i <= n
      invariant out[..j] + Rbsp(s[i..]) == Rbsp(s)
    {
      ghost var done := out[..j];
      if i + 3 < n && src[i] == 0 && src[i + 1] == 0 && src[i + 2] == 3 {
        RbspEscapeStep(s, i, done);
        out[j] := 0;
        out[j + 1] := 0;
        assert out[..j + 2] == done + [0, 0];
        j := j + 2;
        i := i + 3;
      } else {
        RbspCopyStep(s, i, done);
        out[j] := src[i];
        assert out[..j + 1] == done + [s[i]];
        j := j + 1;
        i := i + 1;
      }
    }
    assert s[n..] == [];
    dst := out;
    len := j;
  }

  /**
   * The bounds test as written, `i < i_src - 3` on a 64-bit size_t: the
   * subtraction wraps when `i_src < 3`.
   */
  predicate EscapeWindowAsWritten(i: nat, n: nat)
    requires n < 0x1_0000_0000_0000_0000
  {
    i < (n - 3) % 0x1_0000_0000_0000_0000
  }

  /** For a source of at least three bytes the test as written is the one used by Ep3bToRbsp. */
  lemma EscapeWindowAgrees(i: nat, n: nat)
    requires 3 <= n < 0x1_0000_0000_0000_0000
    ensures EscapeWindowAsWritten(i, n) <==> i + 3 < n
  {
  }

  /**
   * For a two-byte source the wrapped test admits index 0, after which the
   * loop reads `p_src[2]`, one past the end.
   */
  lemma EscapeWindowAsWrittenOverreads()
    ensures EscapeWindowAsWritten(0, 2) && !(0 + 2 < 2)
  {
  }
}
