/** The signed audit chain: records, their MACs, and what verification makes of a sequence of lines. */
module AuditChain {
  import opened Machine
  import opened Outcomes

  type Digest = d: seq<Byte> | |d| == 32 witness seq(32, _ => 0)

  const INTEGRITY_VERSION: nat := 1

  /** What is recorded: timestamp, area, action and details. */
  datatype Payload = Payload(timestamp: string, area: string, action: string, details: string)
  datatype Unsigned = Unsigned(payload: Payload, version: nat, sequence: U64, previousMac: Option<string>)
  datatype Record = Record(body: Unsigned, mac: string)

  /** A line as JSON: not an object, an object without an `integrity` member, an unreadable envelope, or a record. */
  datatype Parsed = Malformed | Legacy(shapeValid: bool) | BadEnvelope | Signed(record: Record)

  /** The JSON codec and the keyed MAC over canonical records. */
  datatype Scheme = Scheme(read: string -> Parsed, write: Record -> string, mac: Unsigned -> Digest)

  // Hexadecimal MACs

  function HexDigit(n: nat): (c: char)
    requires n < 16
  {
    "0123456789abcdef"[n]
  }

  predicate IsHex(c: char) {
    '0' <= c <= '9' || 'a' <= c <= 'f'
  }

  function HexValue(c: char): (n: nat)
    requires IsHex(c)
    ensures n < 16 && HexDigit(n) == c
  {
    if c <= '9' then (c - '0') as nat else (c - 'a') as nat + 10
  }

  function EncodeHex(d: Digest): (s: string)
    ensures |s| == 64
  {
    seq(64, i requires 0 <= i < 64 => if i % 2 == 0 then HexDigit(d[i / 2] / 16) else HexDigit(d[i / 2] % 16))
  }

  function DecodeMac(s: string): (r: Option<Digest>) {
    if |s| != 64 || exists i :: 0 <= i < |s| && !IsHex(s[i]) then None
    else Some(seq(32, i requires 0 <= i < 32 => 16 * HexValue(s[2 * i]) + HexValue(s[2 * i + 1])))
  }

  lemma {:induction false} DigitValue(n: nat)
    requires n < 16
    ensures IsHex(HexDigit(n)) && HexValue(HexDigit(n)) == n
  {
  }

  lemma {:induction false} EncodedAt(d: Digest, i: nat)
    requires i < 32
    ensures var s := EncodeHex(d);
            IsHex(s[2 * i]) && IsHex(s[2 * i + 1]) && 16 * HexValue(s[2 * i]) + HexValue(s[2 * i + 1]) == d[i]
  {
    hide HexDigit, HexValue, IsHex;
    assert (2 * i) / 2 == i && (2 * i) % 2 == 0 && (2 * i + 1) / 2 == i && (2 * i + 1) % 2 == 1;
    DigitValue(d[i] / 16);
    DigitValue(d[i] % 16);
  }

  /** A digest survives being written in hexadecimal. */
  lemma {:induction false} DecodesEncoded(d: Digest)
    ensures DecodeMac(EncodeHex(d)) == Some(d)
  {
    hide HexDigit, HexValue, IsHex, EncodeHex;
    var s := EncodeHex(d);
    forall i | 0 <= i < 64
      ensures IsHex(s[i])
    {
      EncodedAt(d, i / 2);
      assert i == 2 * (i / 2) || i == 2 * (i / 2) + 1;
    }
    forall i | 0 <= i < 32
      ensures 16 * HexValue(s[2 * i]) + HexValue(s[2 * i + 1]) == d[i]
    {
      EncodedAt(d, i);
    }
    assert DecodeMac(s).value == d;
  }

  /** Only one text decodes to a digest. */
  lemma {:induction false} EncodesDecoded(s: string)
    requires DecodeMac(s).Some?
    ensures EncodeHex(DecodeMac(s).value) == s
  {
    var d := DecodeMac(s).value;
    forall i | 0 <= i < 64
      ensures EncodeHex(d)[i] == s[i]
    {
      var k := i / 2;
      assert d[k] / 16 == HexValue(s[2 * k]) && d[k] % 16 == HexValue(s[2 * k + 1]);
    }
  }

  // Verification

  /** The state of verification: what was accepted so far, or the first reason to refuse. */
  datatype Verdict =
    | Accepted(signed: nat, legacy: nat, first: Option<U64>, last: Option<U64>, lastMac: Option<string>)
    | Refused(code: string)

  const START := Accepted(0, 0, None, None, None)

  predicate Anchored(u: Unsigned) {
    u.sequence != 0 && (u.sequence == 1 ==> u.previousMac.None?) && (u.sequence > 1 ==> u.previousMac.Some?)
  }

  function LastOrZero(v: Verdict): U64
    requires v.Accepted?
  {
    if v.last.Some? then v.last.value else 0
  }

  /** The checks a record passes on its own. */
  function CheckRecord(s: Scheme, line: string, r: Record): (code: Option<string>) {
    if s.write(r) != line then Some("audit_noncanonical_record")
    else if r.body.version != INTEGRITY_VERSION then Some("audit_unsupported_integrity_version")
    else if !Anchored(r.body) then Some("audit_invalid_sequence_anchor")
    else if DecodeMac(r.mac).None? then Some("audit_invalid_mac_encoding")
    else if r.body.previousMac.Some? && DecodeMac(r.body.previousMac.value).None? then
      Some("audit_invalid_mac_encoding")
    else if s.mac(r.body) != DecodeMac(r.mac).value then Some("audit_mac_mismatch")
    else None
  }

  /** One line. The successor of the last sequence wraps like an unchecked 64-bit addition. */
  function Step(s: Scheme, v: Verdict, line: string): Verdict {
    if v.Refused? then v
    else if line == "" then Refused("audit_empty_record")
    else match s.read(line)
      case Malformed => Refused("audit_malformed_record")
      case Legacy(shapeValid) =>
        if !shapeValid then Refused("audit_malformed_legacy_record")
        else if v.signed > 0 then Refused("audit_legacy_after_signed")
        else v.(legacy := v.legacy + 1)
      case BadEnvelope => Refused("audit_invalid_integrity_envelope")
      case Signed(r) =>
        var bad := CheckRecord(s, line, r);
        if bad.Some? then Refused(bad.value)
        else if v.lastMac.Some? && r.body.sequence != (LastOrZero(v) + 1) % 0x1_0000_0000_0000_0000 then
          Refused("audit_sequence_gap")
        else if v.lastMac.Some? && r.body.previousMac != v.lastMac then Refused("audit_previous_mac_mismatch")
        else
          Accepted(v.signed + 1, v.legacy, if v.lastMac.Some? then v.first else Some(r.body.sequence),
                   Some(r.body.sequence), Some(r.mac))
  }

  function Check(s: Scheme, lines: seq<string>): Verdict {
    if lines == [] then START else Step(s, Check(s, lines[..|lines| - 1]), lines[|lines| - 1])
  }

  // What an accepted log is, without running the verifier

  predicate LegacyLine(s: Scheme, line: string) {
    line != "" && s.read(line) == Legacy(true)
  }

  predicate Genuine(s: Scheme, line: string) {
    line != "" && s.read(line).Signed? && CheckRecord(s, line, s.read(line).record).None?
  }

  /** A MAC as it is written: 64 lower-case hexadecimal digits. */
  predicate WrittenMac(mac: string) {
    |mac| == 64 && forall i :: 0 <= i < 64 ==> '0' <= mac[i] <= '9' || 'a' <= mac[i] <= 'f'
  }

  /** What makes a line genuine: it is the canonical text of a signed record of version one, numbered from one, with the
      MAC before it exactly if it is not the first, and its own MAC is the one of its body. */
  lemma {:induction false} GenuineIff(s: Scheme, line: string)
    ensures Genuine(s, line) <==>
            && line != "" && s.read(line).Signed?
            && var r := s.read(line).record;
               && s.write(r) == line && r.body.version == 1 && r.body.sequence >= 1
               && (r.body.previousMac.None? <==> r.body.sequence == 1)
               && (r.body.previousMac.Some? ==> WrittenMac(r.body.previousMac.value))
               && WrittenMac(r.mac) && r.mac == EncodeHex(s.mac(r.body))
  {
    hide EncodeHex, HexValue;
    if s.read(line).Signed? {
      var r := s.read(line).record;
      MacIsWritten(r.mac);
      if r.body.previousMac.Some? {
        MacIsWritten(r.body.previousMac.value);
      }
      DecodesEncoded(s.mac(r.body));
      if DecodeMac(r.mac).Some? {
        EncodesDecoded(r.mac);
      }
    }
    hide DecodeMac;
  }

  lemma {:induction false} MacIsWritten(mac: string)
    ensures DecodeMac(mac).Some? <==> WrittenMac(mac)
  {
  }

  function RecordOf(s: Scheme, line: string): Record
    requires Genuine(s, line)
  {
    s.read(line).record
  }

  /** The next record continues the chain: its number is one higher and it names the MAC before it. */
  predicate Linked(a: Record, b: Record) {
    b.body.sequence == a.body.sequence + 1 && b.body.previousMac == Some(a.mac)
  }

  /** Legacy lines first, then genuine records, each linked to the one before. */
  predicate GoodLog(s: Scheme, lines: seq<string>) {
    && (forall i :: 0 <= i < |lines| ==> LegacyLine(s, lines[i]) || Genuine(s, lines[i]))
    && forall i :: 0 < i < |lines| && Genuine(s, lines[i - 1]) ==>
         Genuine(s, lines[i]) && Linked(RecordOf(s, lines[i - 1]), RecordOf(s, lines[i]))
  }

  /** What the counters of an accepting verdict mean. */
  predicate Tallied(s: Scheme, lines: seq<string>, v: Verdict) {
    && v.Accepted?
    && v.legacy + v.signed == |lines|
    && (forall i :: 0 <= i < v.legacy ==> LegacyLine(s, lines[i]))
    && (forall i :: v.legacy <= i < |lines| ==> Genuine(s, lines[i]))
    && (v.signed == 0 ==> v.first.None? && v.last.None? && v.lastMac.None?)
    && (v.signed > 0 ==>
          && v.first == Some(RecordOf(s, lines[v.legacy]).body.sequence)
          && v.last == Some(RecordOf(s, lines[|lines| - 1]).body.sequence)
          && v.lastMac == Some(RecordOf(s, lines[|lines| - 1]).mac)
          && v.last.value - v.first.value + 1 == v.signed)
  }

  lemma {:induction false} StepMeans(s: Scheme, lines: seq<string>, v: Verdict, line: string)
    requires GoodLog(s, lines) && Tallied(s, lines, v)
    ensures Step(s, v, line).Accepted? <==> GoodLog(s, lines + [line])
    ensures Step(s, v, line).Accepted? ==> Tallied(s, lines + [line], Step(s, v, line))
  {
    hide Step, Tallied;
    LastIsSigned(s, lines, v);
    if Step(s, v, line).Accepted? {
      StepAccepts(s, lines, v, line);
    }
    if GoodLog(s, lines + [line]) {
      GoodIsAccepted(s, lines, v, line);
    }
  }

  /** The last line is a record exactly when some line is. */
  lemma {:induction false} LastIsSigned(s: Scheme, lines: seq<string>, v: Verdict)
    requires Tallied(s, lines, v)
    ensures lines != [] ==> (Genuine(s, lines[|lines| - 1]) <==> v.signed > 0)
  {
    hide Genuine, LegacyLine;
    if lines != [] {
      NotBoth(s, lines[|lines| - 1]);
    }
  }

  lemma {:induction false} StepAccepts(s: Scheme, lines: seq<string>, v: Verdict, line: string)
    requires GoodLog(s, lines) && Tallied(s, lines, v) && Step(s, v, line).Accepted?
    requires lines != [] ==> (Genuine(s, lines[|lines| - 1]) <==> v.signed > 0)
    ensures GoodLog(s, lines + [line]) && Tallied(s, lines + [line], Step(s, v, line))
  {
    hide CheckRecord;
    var more := lines + [line];
    assert forall i :: 0 <= i < |lines| ==> more[i] == lines[i];
    assert more[|lines|] == line;
    assert LegacyLine(s, line) || Genuine(s, line);
    if Genuine(s, line) {
      SequencePositive(s, line);
    }
  }

  lemma {:induction false} GoodIsAccepted(s: Scheme, lines: seq<string>, v: Verdict, line: string)
    requires GoodLog(s, lines + [line]) && Tallied(s, lines, v)
    requires lines != [] ==> (Genuine(s, lines[|lines| - 1]) <==> v.signed > 0)
    ensures Step(s, v, line).Accepted?
  {
    hide CheckRecord;
    var n := |lines|;
    var more := lines + [line];
    assert more[n] == line && (LegacyLine(s, more[n]) || Genuine(s, more[n]));
    if n > 0 {
      assert more[n - 1] == lines[n - 1];
    }
  }

  lemma {:induction false} SequencePositive(s: Scheme, line: string)
    requires Genuine(s, line)
    ensures RecordOf(s, line).body.sequence > 0
  {
  }

  lemma {:induction false} NotBoth(s: Scheme, line: string)
    ensures !(LegacyLine(s, line) && Genuine(s, line))
  {
  }

  /** Verification accepts exactly the good logs, and then its report counts them. */
  lemma {:induction false} AcceptsExactlyGoodLogs(s: Scheme, lines: seq<string>)
    ensures Check(s, lines).Accepted? <==> GoodLog(s, lines)
    ensures Check(s, lines).Accepted? ==> Tallied(s, lines, Check(s, lines))
  {
    hide Step;
    if lines != [] {
      var before := lines[..|lines| - 1];
      AcceptsExactlyGoodLogs(s, before);
      assert lines == before + [lines[|lines| - 1]];
      if GoodLog(s, before) {
        StepMeans(s, before, Check(s, before), lines[|lines| - 1]);
      } else {
        RefusalStays(s, Check(s, before), lines[|lines| - 1]);
        BadPrefix(s, lines, |lines| - 1);
      }
    }
  }

  lemma {:induction false} RefusalStays(s: Scheme, v: Verdict, line: string)
    requires v.Refused?
    ensures Step(s, v, line) == v
  {
  }

  /** Every stretch of a good log is a good log. */
  lemma {:induction false} StretchIsGood(s: Scheme, lines: seq<string>, from: nat, to: nat)
    requires GoodLog(s, lines) && from <= to <= |lines|
    ensures GoodLog(s, lines[from..to])
  {
    hide Genuine, LegacyLine;
    var part := lines[from..to];
    forall i | 0 < i < |part| && Genuine(s, part[i - 1])
      ensures Genuine(s, part[i]) && Linked(RecordOf(s, part[i - 1]), RecordOf(s, part[i]))
    {
      assert part[i - 1] == lines[from + i - 1] && part[i] == lines[from + i];
    }
  }

  lemma {:induction false} BadPrefix(s: Scheme, lines: seq<string>, n: nat)
    requires n <= |lines| && !GoodLog(s, lines[..n])
    ensures !GoodLog(s, lines)
  {
    assert lines[0..n] == lines[..n];
    if GoodLog(s, lines) {
      StretchIsGood(s, lines, 0, n);
    }
  }

  // Two logs that end in the same MAC

  predicate FullySigned(s: Scheme, lines: seq<string>) {
    forall i :: 0 <= i < |lines| ==> Genuine(s, lines[i])
  }

  predicate IsSuffix<T(==)>(a: seq<T>, b: seq<T>) {
    |a| <= |b| && b[|b| - |a|..] == a
  }

  /** Two genuine lines with different bodies and the same MAC. */
  predicate Clash(s: Scheme, a: string, b: string) {
    && Genuine(s, a) && Genuine(s, b)
    && RecordOf(s, a).body != RecordOf(s, b).body && s.mac(RecordOf(s, a).body) == s.mac(RecordOf(s, b).body)
  }

  /** A line of the one log clashes with a line of the other. */
  predicate Clashing(s: Scheme, a: seq<string>, b: seq<string>) {
    exists i, j :: 0 <= i < |a| && 0 <= j < |b| && Clash(s, a[i], b[j])
  }

  /** Equal MACs on genuine lines mean equal lines, or a clash. */
  lemma {:induction false} SameMacSameLine(s: Scheme, a: string, b: string)
    requires Genuine(s, a) && Genuine(s, b) && RecordOf(s, a).mac == RecordOf(s, b).mac
    ensures a == b || Clash(s, a, b)
  {
    assert s.mac(RecordOf(s, a).body) == s.mac(RecordOf(s, b).body);
    if RecordOf(s, a).body == RecordOf(s, b).body {
      assert RecordOf(s, a) == RecordOf(s, b);
    }
  }

  /** Accepted, fully signed logs that end in the same MAC agree backwards as far as the shorter one reaches, unless two
      of their records clash. */
  lemma {:induction false} SameEndIsSuffix(s: Scheme, a: seq<string>, b: seq<string>)
    requires GoodLog(s, a) && GoodLog(s, b) && FullySigned(s, a) && FullySigned(s, b)
    requires 0 < |a| <= |b| && RecordOf(s, a[|a| - 1]).mac == RecordOf(s, b[|b| - 1]).mac
    ensures IsSuffix(a, b) || Clashing(s, a, b)
    decreases |a|
  {
    hide Genuine, LegacyLine, Clash;
    var m, n := |a| - 1, |b| - 1;
    SameMacSameLine(s, a[m], b[n]);
    if a[m] != b[n] {
      assert Clash(s, a[m], b[n]);
    } else if m > 0 {
      var a', b' := a[..m], b[..n];
      assert Linked(RecordOf(s, a[m - 1]), RecordOf(s, a[m]));
      assert Linked(RecordOf(s, b[n - 1]), RecordOf(s, b[n]));
      StretchIsGood(s, a, 0, m);
      StretchIsGood(s, b, 0, n);
      assert a' == a[0..m] && b' == b[0..n];
      SameEndIsSuffix(s, a', b');
      if Clashing(s, a', b') {
        var i, j :| 0 <= i < |a'| && 0 <= j < |b'| && Clash(s, a'[i], b'[j]);
        assert Clash(s, a[i], b[j]);
      } else {
        assert b[|b| - |a|..] == b'[|b'| - |a'|..] + [b[n]];
        assert a == a' + [a[m]];
      }
    } else {
      assert b[|b| - |a|..] == [b[n]];
    }
  }

  /** The last MAC pins the whole log: unless two records clash, one of the two logs is a suffix of the other, and they
      are equal if both start at sequence one. */
  lemma {:induction false} LastMacPinsLog(s: Scheme, a: seq<string>, b: seq<string>)
    requires Check(s, a).Accepted? && Check(s, b).Accepted?
    requires Check(s, a).legacy == 0 == Check(s, b).legacy && Check(s, a).signed > 0 && Check(s, b).signed > 0
    requires Check(s, a).lastMac == Check(s, b).lastMac
    ensures IsSuffix(a, b) || IsSuffix(b, a) || Clashing(s, a, b)
    ensures Check(s, a).first == Some(1) && Check(s, b).first == Some(1) ==> a == b || Clashing(s, a, b)
  {
    hide Check, GoodLog, Genuine, LegacyLine, Clash;
    AcceptsExactlyGoodLogs(s, a);
    AcceptsExactlyGoodLogs(s, b);
    if |a| <= |b| {
      SameEndIsSuffix(s, a, b);
    } else {
      SameEndIsSuffix(s, b, a);
      ClashingIsSymmetric(s, a, b);
    }
    SameMacSameLine(s, a[|a| - 1], b[|b| - 1]);
  }

  lemma {:induction false} ClashingIsSymmetric(s: Scheme, a: seq<string>, b: seq<string>)
    ensures Clashing(s, b, a) ==> Clashing(s, a, b)
  {
    if Clashing(s, b, a) {
      var j, i :| 0 <= j < |b| && 0 <= i < |a| && Clash(s, b[j], a[i]);
      assert Clash(s, a[i], b[j]);
    }
  }
}
