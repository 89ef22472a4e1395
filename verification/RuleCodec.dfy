/** The memory image of `Rules_t` and what a storage read does to it. */
module RuleCodec {
  import opened Types

  /** sizeof(Rules_t): four-byte enum, aligned to four. */
  const RULE_SIZE: nat := 16

  /** The bytes the compiler inserts at offsets 6, 7, 14 and 15; their values are unspecified. */
  datatype Padding = Padding(p6: byte, p7: byte, p14: byte, p15: byte)

  /** The image of a rule on the little-endian target. */
  function Encode(r: Rule, pad: Padding): (b: seq<byte>)
    ensures |b| == RULE_SIZE
  {
    [r.year % 0x100, r.year / 0x100, r.month, r.day, r.hour, r.minutes, pad.p6, pad.p7,
     r.period % 0x100, r.period / 0x100 % 0x100, r.period / 0x1_0000 % 0x100, r.period / 0x100_0000,
     r.weekDays, r.amount, pad.p14, pad.p15]
  }

  function Decode(b: seq<byte>): Rule
    requires |b| == RULE_SIZE
  {
    Rule(b[0] as int + 0x100 * b[1] as int, b[2], b[3], b[4], b[5],
         b[8] as int + 0x100 * b[9] as int + 0x1_0000 * b[10] as int + 0x100_0000 * b[11] as int,
         b[12], b[13])
  }

  /** How many bytes `zms_read` copies into a buffer of the given size. */
  function Copied(data: seq<byte>, size: nat): (n: nat)
    ensures n <= |data| && n <= size
  {
    if |data| < size then |data| else size
  }

  /** `Storage::read_buffer` on success: copy, then force a terminating zero inside the buffer. */
  function ReadInto(old_: seq<byte>, data: seq<byte>): (b: seq<byte>)
    requires |old_| > 0
    ensures |b| == |old_|
  {
    var n := Copied(data, |old_|);
    var copied := data[..n] + old_[n..];
    copied[(if n < |old_| then n else |old_| - 1) := 0]
  }

  lemma DecodeEncode(r: Rule, pad: Padding)
    ensures Decode(Encode(r, pad)) == r
  {
    assert r.period == r.period % 0x100 + 0x100 * (r.period / 0x100);
    assert r.period / 0x100 == r.period / 0x100 % 0x100 + 0x100 * (r.period / 0x1_0000);
    assert r.period / 0x1_0000 == r.period / 0x1_0000 % 0x100 + 0x100 * (r.period / 0x100_0000);
  }

  /** No field of a stored rule is lost: the forced zero lands on padding, whatever the buffer held before. */
  lemma StoredRuleSurvivesRead(r: Rule, pad: Padding, old_: seq<byte>)
    requires |old_| == RULE_SIZE
    ensures Decode(ReadInto(old_, Encode(r, pad))) == r
  {
    var e := Encode(r, pad);
    assert ReadInto(old_, e) == e[15 := 0];
    assert e[15 := 0] == Encode(r, pad.(p15 := 0));
    DecodeEncode(r, pad.(p15 := 0));
  }

  /** A shorter entry is copied whole and terminated; the rest of the buffer is left alone. */
  lemma ShortReadTerminates(old_: seq<byte>, data: seq<byte>)
    requires |data| < |old_|
    ensures var b, n := ReadInto(old_, data), |data|;
            b[..n] == data && b[n] == 0 && b[n + 1..] == old_[n + 1..]
  {
  }

  /** Exactly when a read that fills its buffer returns what was stored. */
  lemma FullReadIsExactIff(old_: seq<byte>, data: seq<byte>)
    requires |old_| > 0 && |data| == |old_|
    ensures ReadInto(old_, data) == data <==> data[|data| - 1] == 0
  {
    assert ReadInto(old_, data) == data[|data| - 1 := 0];
    assert data[|data| - 1 := 0][|data| - 1] == 0;
    if data[|data| - 1] == 0 {
      assert data[|data| - 1 := 0] == data;
    }
  }
}
