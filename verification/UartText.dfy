/** uartd: the rolling window over what the UART received, and the JSON string it is published
    as. */
module UartText {
  import opened Options

  type Byte = b: int | 0 <= b < 256

  // ---- the window --------------------------------------------------------------------

  const CAPACITY: nat := 4096   // sizeof(rx_acc)
  const DATA_MAX: nat := 384    // UART_DATA_MAX, the size of a reply's data

  /** The last n bytes of s, or all of them. */
  function Last(s: seq<Byte>, n: nat): seq<Byte> {
    if |s| <= n then s else s[|s| - n..]
  }

  /** Dropping the oldest bytes early loses nothing that would be kept. */
  lemma LastOfLast(s: seq<Byte>, t: seq<Byte>, n: nat)
    ensures Last(Last(s, n) + t, n) == Last(s + t, n)
  {
    if |s| > n {
      assert s + t == s[..|s| - n] + (Last(s, n) + t);
    }
  }

  /** Last is the newest: a suffix, of at most n bytes, and all when there are no more. */
  lemma LastIsNewest(s: seq<Byte>, n: nat)
    ensures var k := if |s| < n then |s| else n; Last(s, n) == s[|s| - k..]
  {
  }

  lemma LastDrops(s: seq<Byte>, t: seq<Byte>, n: nat)
    requires |t| <= n
    ensures Last(s + t, n) == (if |s| + |t| > n then s[|s| + |t| - n..] else s) + t
  {
  }

  class Window {
    const acc: array<Byte>
    var len: nat
    ghost var received: seq<Byte>

    ghost predicate Valid()
      reads this, acc
    {
      acc.Length == CAPACITY && len <= CAPACITY && acc[..len] == Last(received, CAPACITY)
    }

    constructor ()
      ensures Valid() && fresh(acc) && received == []
    {
      acc := new Byte[CAPACITY](_ => 0);
      len := 0;
      received := [];
      new;
      assert acc[..0] == [];
    }

    /** One reply carrying the first rxLen bytes of data, in practice at most DATA_MAX. */
    method Accept(data: seq<Byte>, rxLen: nat)
      requires Valid() && rxLen <= |data|
      modifies this, acc
      ensures Valid()
      ensures received == old(received) + data[..if rxLen > CAPACITY then CAPACITY else rxLen]
      ensures rxLen <= DATA_MAX ==> received == old(received) + data[..rxLen]
      ensures len == (if |received| < 4096 then |received| else 4096) && acc[..len] == received[|received| - len..]
    {
      ghost var kept := if rxLen > CAPACITY then CAPACITY else rxLen;
      LastOfLast(received, data[..kept], CAPACITY);
      LastIsNewest(received + data[..kept], CAPACITY);
      received := received + data[..kept];
      if rxLen != 0 {
        var n := rxLen;
        if n > acc.Length {
          n := acc.Length;
        }
        Push(data, n);
      } else {
        assert data[..kept] == [];
      }
    }

    /** Make room for the n bytes, then append them. */
    method Push(data: seq<Byte>, n: nat)
      requires n <= |data| && n <= CAPACITY == acc.Length && len <= CAPACITY
      modifies `len, acc
      ensures len <= CAPACITY && acc[..len] == Last(old(acc[..len]) + data[..n], CAPACITY)
    {
      ghost var was := acc[..len];
      if len + n > acc.Length {
        DropOldest(len + n - acc.Length);
      }
      Append(data, n);
      LastDrops(was, data[..n], CAPACITY);
    }

    /** memmove(rx_acc, rx_acc + drop, rx_len - drop); rx_len -= drop. */
    method DropOldest(drop: nat)
      requires drop <= len <= acc.Length
      modifies `len, acc
      ensures len == old(len) - drop && acc[..len] == old(acc[drop..len])
    {
      ghost var was := acc[..];
      var i := 0;
      while i < len - drop
        invariant i <= len - drop && len == old(len)
        invariant forall k :: 0 <= k < i ==> acc[k] == was[drop + k]
        invariant forall k :: i <= k < len ==> acc[k] == was[k]
      {
        acc[i] := acc[drop + i];
        i := i + 1;
      }
      len := len - drop;
    }

    /** memcpy(rx_acc + rx_len, rsp.data, n); rx_len += n. */
    method Append(data: seq<Byte>, n: nat)
      requires len + n <= acc.Length && n <= |data|
      modifies `len, acc
      ensures len == old(len) + n && acc[..len] == old(acc[..len]) + data[..n]
    {
      ghost var was := acc[..len];
      var i := 0;
      while i < n
        invariant i <= n && len == old(len) && acc[..len] == was
        invariant forall k :: 0 <= k < i ==> acc[len + k] == data[k]
      {
        acc[len + i] := data[i];
        i := i + 1;
      }
      len := len + n;
    }

    /** The text between the quotes of rx_text. */
    method Publish() returns (text: string)
      requires Valid()
      ensures var k := if |received| < 4096 then |received| else 4096;
              forall rest :: Parse(text + ['"'] + rest) == Some(Parsed(received[|received| - k..], rest))
      ensures |text| <= 6 * 4096
      ensures forall rest :: Parse(text + ['"'] + rest) == Some(Parsed(Last(received, CAPACITY), rest))
    {
      text := Escape(acc[..], len);
      LastIsNewest(received, CAPACITY);
      EscapedFits(Last(received, CAPACITY));
      forall rest ensures Parse(text + ['"'] + rest) == Some(Parsed(Last(received, CAPACITY), rest)) {
        EscapedParses(Last(received, CAPACITY), rest);
      }
    }
  }

  // ---- escaping ----------------------------------------------------------------------

  const DIGITS: string := "0123456789abcdef"

  /** %04x of a value below 256. */
  function Hex4(c: Byte): string {
    ['0', '0', DIGITS[c / 16], DIGITS[c % 16]]
  }

  function EscapedByte(c: Byte): (s: string)
    ensures s != []
  {
    if c == 0x22 || c == 0x5c then ['\\', c as char]
    else if c == 0x0a then ['\\', 'n']
    else if c == 0x0d then ['\\', 'r']
    else if c < 0x20 || c > 0x7e then ['\\', 'u'] + Hex4(c)
    else [c as char]
  }

  function Escaped(s: seq<Byte>): string {
    if s == [] then [] else EscapedByte(s[0]) + Escaped(s[1..])
  }

  lemma {:induction false} EscapedAppend(s: seq<Byte>, c: Byte)
    ensures Escaped(s + [c]) == Escaped(s) + EscapedByte(c)
  {
    if s == [] {
      assert s + [c] == [c];
    } else {
      var t := s + [c];
      EscapedAppend(s[1..], c);
      assert t[0] == s[0] && t[1..] == s[1..] + [c];
      Associates(EscapedByte(s[0]), Escaped(s[1..]), EscapedByte(c));
    }
  }

  lemma Associates(x: string, y: string, z: string)
    ensures x + (y + z) == x + y + z
  {
  }

  /** uartd_json_escape. */
  method Escape(s: seq<Byte>, n: nat) returns (out: string)
    requires n <= |s|
    ensures out == Escaped(s[..n])
  {
    out := [];
    for i := 0 to n
      invariant out == Escaped(s[..i])
    {
      var c := s[i];
      EscapedAppend(s[..i], c);
      assert s[..i + 1] == s[..i] + [c];
      if c == 0x22 || c == 0x5c {
        out := out + ['\\', c as char];
      } else if c == 0x0a {
        out := out + ['\\', 'n'];
      } else if c == 0x0d {
        out := out + ['\\', 'r'];
      } else if c < 0x20 || c > 0x7e {
        out := out + (['\\', 'u'] + Hex4(c));
      } else {
        out := out + [c as char];
      }
    }
  }

  // ---- a JSON string reader (RFC 8259, section 7) ------------------------------------

  datatype Parsed = Parsed(codes: seq<int>, rest: string)

  function HexValue(c: char): int {
    if '0' <= c <= '9' then c as int - '0' as int
    else if 'a' <= c <= 'f' then c as int - 'a' as int + 10
    else if 'A' <= c <= 'F' then c as int - 'A' as int + 10
    else -1
  }

  /** What the two-character escapes stand for. */
  function Short(c: char): int {
    if c == '"' || c == '\\' || c == '/' then c as int
    else if c == 'b' then 8
    else if c == 'f' then 12
    else if c == 'n' then 10
    else if c == 'r' then 13
    else if c == 't' then 9
    else -1
  }

  function Code(s: string): int
    requires |s| >= 4
  {
    var a, b, c, d := HexValue(s[0]), HexValue(s[1]), HexValue(s[2]), HexValue(s[3]);
    if a < 0 || b < 0 || c < 0 || d < 0 then -1 else a * 4096 + b * 256 + c * 16 + d
  }

  function Prepend(code: int, p: Option<Parsed>): Option<Parsed> {
    if p == None then None else Some(Parsed([code] + p.value.codes, p.value.rest))
  }

  /** Reads characters up to the closing quote; None when the text is not a JSON string. */
  function Parse(s: string): Option<Parsed>
    decreases |s|
  {
    if s == [] then None
    else if s[0] == '"' then Some(Parsed([], s[1..]))
    else if s[0] == '\\' then
      if |s| >= 2 && Short(s[1]) >= 0 then Prepend(Short(s[1]), Parse(s[2..]))
      else if |s| >= 6 && s[1] == 'u' && Code(s[2..]) >= 0 then Prepend(Code(s[2..]), Parse(s[6..]))
      else None
    else if s[0] as int < 0x20 then None
    else Prepend(s[0] as int, Parse(s[1..]))
  }

  lemma HexDigit(n: int)
    requires 0 <= n < 16
    ensures HexValue(DIGITS[n]) == n
  {
    assert DIGITS[0] == '0' && DIGITS[10] == 'a' && DIGITS[15] == 'f';
  }

  lemma ByteParses(c: Byte, s: string)
    ensures Parse(EscapedByte(c) + s) == Prepend(c, Parse(s))
  {
    var e := EscapedByte(c);
    var t := e + s;
    assert t[|e|..] == s;
    if |e| == 6 {
      HexDigit(c / 16);
      HexDigit(c % 16);
      assert t[2..][0] == '0' && t[2..][1] == '0' && t[2..][2] == DIGITS[c / 16] && t[2..][3] == DIGITS[c % 16];
      assert Short('u') < 0;
      assert Code(t[2..]) == c;
    }
  }

  /** THE PUBLISHED TEXT READS BACK.  Whatever bytes were received, the emitted characters up to
      the closing quote are a valid JSON string, and it decodes to those bytes. */
  lemma {:induction false} EscapedParses(s: seq<Byte>, rest: string)
    ensures Parse(Escaped(s) + ['"'] + rest) == Some(Parsed(s, rest))
  {
    if s == [] {
      assert Escaped(s) + ['"'] + rest == ['"'] + rest;
      QuoteCloses(rest);
    } else {
      EscapedParses(s[1..], rest);
      OneMoreParses(s[0], Escaped(s[1..]), s[1..], rest);
      assert [s[0]] + s[1..] == s;
    }
  }

  lemma OneMoreParses(c: Byte, text: string, s: seq<Byte>, rest: string)
    requires Parse(text + ['"'] + rest) == Some(Parsed(s, rest))
    ensures Parse(EscapedByte(c) + text + ['"'] + rest) == Some(Parsed([c] + s, rest))
  {
    ByteParses(c, text + ['"'] + rest);
    Associates(EscapedByte(c), text, ['"']);
    Associates(EscapedByte(c), text + ['"'], rest);
  }

  predicate Printable(c: Byte) {
    0x20 <= c <= 0x7e
  }

  /** Lines of printable text take at most two characters a byte. */
  lemma {:induction false} LinesStayShort(s: seq<Byte>)
    requires forall k :: 0 <= k < |s| ==> Printable(s[k]) || s[k] == 0x0a || s[k] == 0x0d
    ensures |Escaped(s)| <= 2 * |s|
  {
    if s != [] {
      LinesStayShort(s[1..]);
    }
  }

  /** Plain text stands for itself, and no byte takes more than six characters. */
  lemma {:induction false} EscapedFits(s: seq<Byte>)
    ensures |s| <= |Escaped(s)| <= 6 * |s|
    ensures (forall k :: 0 <= k < |s| ==> Printable(s[k]) && s[k] != 0x22 && s[k] != 0x5c) ==>
              |Escaped(s)| == |s| && forall k :: 0 <= k < |s| ==> Escaped(s)[k] == s[k] as char
  {
    if s != [] {
      EscapedFits(s[1..]);
      assert forall k :: 1 <= k < |s| ==> s[k] == s[1..][k - 1];
    }
  }

  lemma QuoteCloses(rest: string)
    ensures Parse(['"'] + rest) == Some(Parsed([], rest))
  {
    assert (['"'] + rest)[1..] == rest;
  }

  /** Only printable ASCII is emitted. */
  lemma {:induction false} EscapedIsPrintable(s: seq<Byte>)
    ensures forall k :: 0 <= k < |Escaped(s)| ==> ' ' <= Escaped(s)[k] <= '~'
  {
    if s != [] {
      EscapedIsPrintable(s[1..]);
      BytePrintable(s[0]);
    }
  }

  lemma BytePrintable(c: Byte)
    ensures forall k :: 0 <= k < |EscapedByte(c)| ==> ' ' <= EscapedByte(c)[k] <= '~'
  {
    assert forall n :: 0 <= n < 16 ==> ' ' <= DIGITS[n] <= '~';
  }
}
