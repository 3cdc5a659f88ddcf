/**
 * The name codec of the rotating writer: a file's identity `{index, dateString}` is
 * encoded into its file name and decoded back from it. The source serialises the
 * record to JSON and base64-encodes it; this model uses a stand-in with the properties
 * the rest of the system relies on: decoding inverts encoding, the encoded payload never
 * contains '.', so removing ".log" from a name leaves the payload intact, and any
 * other name may fail to decode.
 */
module LogNameCodec {
  import opened Options
  import Strings

  /** The identity a log file's name carries (`LogName`). */
  datatype LogName = LogName(index: nat, dateString: string)

  /** The suffix of every log file name. */
  const Extension: string := ".log"

  function EscapeChar(c: char): string {
    if c == '%' then "%%" else if c == '.' then "%p" else [c]
  }

  /** The date string with '%' and '.' escaped, so that the result has no '.'. */
  function Escape(s: string): (r: string)
    ensures forall i | 0 <= i < |r| :: r[i] != '.'
  {
    if s == [] then [] else EscapeChar(s[0]) + Escape(s[1..])
  }

  function Prepend(c: char, rest: Option<string>): Option<string> {
    match rest
    case Some(t) => Some([c] + t)
    case None => None
  }

  /** Undoes `Escape`; a dangling or unknown escape does not decode. */
  function Unescape(s: string): Option<string>
    decreases |s|
  {
    if s == [] then Some([])
    else if s[0] != '%' then Prepend(s[0], Unescape(s[1..]))
    else if |s| >= 2 && s[1] == '%' then Prepend('%', Unescape(s[2..]))
    else if |s| >= 2 && s[1] == 'p' then Prepend('.', Unescape(s[2..]))
    else None
  }

  lemma {:induction false} UnescapeEscape(s: string)
    ensures Unescape(Escape(s)) == Some(s)
  {
    if s != [] {
      UnescapeEscape(s[1..]);
      var e, rest := EscapeChar(s[0]), Escape(s[1..]);
      assert Escape(s) == e + rest;
      if s[0] == '%' || s[0] == '.' {
        assert (e + rest)[2..] == rest;
      } else {
        assert (e + rest)[1..] == rest;
      }
      assert s == [s[0]] + s[1..];
    }
  }

  /** The encoded record, standing for the base64 text of its JSON form. */
  function Payload(n: LogName): (p: string)
    ensures forall i | 0 <= i < |p| :: p[i] != '.'
  {
    Strings.NatToString(n.index) + "-" + Escape(n.dateString)
  }

  function ParsePayload(p: string): Option<LogName> {
    var k := Strings.IndexOf(p, '-');
    if k == |p| then None
    else
      match (Strings.ParseNat(p[..k]), Unescape(p[k + 1..]))
      case (Some(i), Some(d)) => Some(LogName(i, d))
      case _ => None
  }

  /** `encode(_:)`: the payload followed by ".log". */
  function Encode(n: LogName): (name: string)
    ensures |name| > |Extension| && name[|name| - |Extension|..] == Extension
  {
    Payload(n) + Extension
  }

  /** `decode(_:)`: every ".log" is removed and the rest is parsed; foreign names give `None`. */
  function Decode(name: string): Option<LogName> {
    ParsePayload(Strings.RemoveAll(name, Extension))
  }

  /** Decoding inverts encoding, for every index and every date string. */
  lemma DecodeEncode(n: LogName)
    ensures Decode(Encode(n)) == Some(n)
  {
    var p := Payload(n);
    forall i: nat | i < |p| ensures !Strings.MatchAt(p + Extension, i, Extension) {
      assert (p + Extension)[i] != Extension[0];
    }
    Strings.RemoveAllTrailing(p, Extension);
    var digits := Strings.NatToString(n.index);
    assert p == digits + ['-'] + Escape(n.dateString);
    Strings.IndexOfAfter(digits, '-', Escape(n.dateString));
    assert p[..|digits|] == digits;
    assert p[|digits| + 1..] == Escape(n.dateString);
    Strings.ParseNatToString(n.index);
    UnescapeEscape(n.dateString);
  }

  /** Distinct identities get distinct names. */
  lemma EncodeInjective(a: LogName, b: LogName)
    ensures Encode(a) == Encode(b) ==> a == b
  {
    DecodeEncode(a);
    DecodeEncode(b);
  }
}
