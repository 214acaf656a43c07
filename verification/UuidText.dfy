/** UUIDs as numbers, and their hyphenated text (section 4 of RFC 9562). */
module UuidText {
  import opened Options
  import opened Digits

  /** A 128-bit number; the database compares UUIDs byte by byte, which is by this number. */
  type Uuid = n: nat | n < 0x1_0000_0000_0000_0000_0000_0000_0000_0000

  function Hex(id: Uuid): (s: string)
    ensures |s| == 32
  {
    Fixed(id, 16, 32)
  }

  function Hyphenated(h: string): (s: string)
    requires |h| == 32
    ensures |s| == 36
  {
    h[..8] + "-" + h[8..12] + "-" + h[12..16] + "-" + h[16..20] + "-" + h[20..]
  }

  /** `Display`: lower-case digits in groups of 8, 4, 4, 4 and 12. */
  function Print(id: Uuid): (s: string)
    ensures |s| == 36
  {
    Hyphenated(Hex(id))
  }

  function Unhyphenated(s: string): string
    requires |s| == 36
  {
    s[..8] + s[9..13] + s[14..18] + s[19..23] + s[24..]
  }

  /** The hyphenated form, in either case. */
  function Parse(s: string): Option<Uuid> {
    if |s| != 36 || s[8] != '-' || s[13] != '-' || s[18] != '-' || s[23] != '-' then None
    else
      match Value(Unhyphenated(s), 16)
      case None => None
      case Some(n) => if n < 0x1_0000_0000_0000_0000_0000_0000_0000_0000 then Some(n) else None
  }

  lemma PowerOf32()
    ensures Power(16, 32) == 0x1_0000_0000_0000_0000_0000_0000_0000_0000
  {
    assert Power(16, 8) == 0x1_0000_0000;
    assert Power(16, 16) == 0x1_0000_0000_0000_0000;
    assert Power(16, 24) == 0x1_0000_0000_0000_0000_0000_0000;
  }

  lemma Groups(h: string)
    requires |h| == 32
    ensures var s := Hyphenated(h);
      && s[..8] == h[..8] && s[9..13] == h[8..12] && s[14..18] == h[12..16]
      && s[19..23] == h[16..20] && s[24..] == h[20..]
      && s[8] == '-' && s[13] == '-' && s[18] == '-' && s[23] == '-'
  {
  }

  lemma GroupsJoin(h: string)
    requires |h| == 32
    ensures h[..8] + h[8..12] + h[12..16] + h[16..20] + h[20..] == h
  {
  }

  lemma HyphensOff(h: string)
    requires |h| == 32
    ensures Unhyphenated(Hyphenated(h)) == h
    ensures var s := Hyphenated(h); s[8] == '-' && s[13] == '-' && s[18] == '-' && s[23] == '-'
  {
    Groups(h);
    GroupsJoin(h);
  }

  lemma RoundTrip(id: Uuid)
    ensures Parse(Print(id)) == Some(id)
  {
    PowerOf32();
    HyphensOff(Hex(id));
    FixedReads(id, 16, 32);
  }
}
