/**
 * `ConnectionIdentifier`: a connection string of the form
 * "192.168.1.165:123=>116.211.8.5:456" and the four fields parsed from it.
 * The parse is all or nothing: any failure leaves "Unknown"/0 in all four.
 * Equality, the hash and `ToString` depend on the raw string alone.
 */
module ConnectionIdentifiers {
  import opened Bytes
  import opened Wrappers

  // ---------------------------------------------------------------------
  // String.Split

  /** `s.Split(sep)` scanning left to right, the piece being read so far
    * in `cur`: at each position where `sep` starts, the piece ends and the
    * scan resumes after the separator. Empty pieces are kept. */
  function SplitBy(s: string, sep: string, cur: string): (pieces: seq<string>)
    requires |sep| > 0
    ensures |pieces| > 0
    decreases |s|
  {
    if |s| == 0 then [cur]
    else if sep <= s then [cur] + SplitBy(s[|sep|..], sep, [])
    else SplitBy(s[1..], sep, cur + [s[0]])
  }

  /** `String.Join(sep, pieces)`. */
  function Join(pieces: seq<string>, sep: string): string
    requires |pieces| > 0
    decreases |pieces|
  {
    if |pieces| == 1 then pieces[0] else pieces[0] + sep + Join(pieces[1..], sep)
  }

  /** Joining the pieces with the separator gives back the split string. */
  lemma {:induction false} SplitJoin(s: string, sep: string, cur: string)
    requires |sep| > 0
    ensures Join(SplitBy(s, sep, cur), sep) == cur + s
    decreases |s|
  {
    if |s| == 0 {
    } else if sep <= s {
      SplitJoin(s[|sep|..], sep, []);
      assert s == sep + s[|sep|..];
    } else {
      SplitJoin(s[1..], sep, cur + [s[0]]);
      assert s == [s[0]] + s[1..];
    }
  }

  /** A single-character separator never occurs in a piece. */
  lemma {:induction false} SplitCharPieces(s: string, c: char, cur: string)
    requires c !in cur
    ensures forall p :: p in SplitBy(s, [c], cur) ==> c !in p
    decreases |s|
  {
    if |s| == 0 {
    } else if [c] <= s {
      SplitCharPieces(s[1..], c, []);
    } else {
      assert s[0] != c;
      SplitCharPieces(s[1..], c, cur + [s[0]]);
    }
  }

  /** Where `sep` starts nowhere in the first `|x|` positions, those
    * characters are added to the current piece. */
  lemma {:induction false} SplitPass(x: string, y: string, sep: string, cur: string)
    requires |sep| > 0
    requires forall i :: 0 <= i < |x| ==> !(sep <= (x + y)[i..])
    ensures SplitBy(x + y, sep, cur) == SplitBy(y, sep, cur + x)
    decreases |x|
  {
    if |x| > 0 {
      var s := x + y;
      assert s[0..] == s;
      assert !(sep <= s);
      assert s[0] == x[0];
      assert s[1..] == x[1..] + y;
      assert SplitBy(s, sep, cur) == SplitBy(x[1..] + y, sep, cur + [x[0]]);
      forall i | 0 <= i < |x[1..]|
        ensures !(sep <= (x[1..] + y)[i..])
      {
        assert (x[1..] + y)[i..] == s[i + 1..];
      }
      SplitPass(x[1..], y, sep, cur + [x[0]]);
      assert x == [x[0]] + x[1..];
      assert cur + [x[0]] + x[1..] == cur + x;
    } else {
      assert x + y == y && cur + x == cur;
    }
  }

  /** A separator at the front ends the current piece. */
  lemma {:induction false} SplitAt(sep: string, y: string, cur: string)
    requires |sep| > 0
    ensures SplitBy(sep + y, sep, cur) == [cur] + SplitBy(y, sep, [])
  {
    assert (sep + y)[|sep|..] == y;
  }

  /** `StringSplitOptions.RemoveEmptyEntries`. */
  function RemoveEmpty(pieces: seq<string>): (r: seq<string>)
    ensures forall p :: p in r <==> p in pieces && p != []
    decreases |pieces|
  {
    if |pieces| == 0 then []
    else if pieces[0] == [] then RemoveEmpty(pieces[1..])
    else [pieces[0]] + RemoveEmpty(pieces[1..])
  }

  /** Removing empty pieces keeps the non-empty ones in order. */
  lemma {:induction false} RemoveEmptyConcat(a: seq<string>, b: seq<string>)
    ensures RemoveEmpty(a + b) == RemoveEmpty(a) + RemoveEmpty(b)
    decreases |a|
  {
    if |a| > 0 {
      assert (a + b)[1..] == a[1..] + b;
      RemoveEmptyConcat(a[1..], b);
    } else {
      assert a + b == b;
    }
  }

  // ---------------------------------------------------------------------
  // UInt16.Parse

  predicate IsWhite(c: char) {
    '\t' <= c <= '\r' || c == ' '
  }

  predicate IsDigit(c: char) {
    '0' <= c <= '9'
  }

  predicate AllDigits(s: string) {
    forall i :: 0 <= i < |s| ==> IsDigit(s[i])
  }

  function TrimStart(s: string): (t: string)
    ensures |t| <= |s| && t == s[|s| - |t|..]
    ensures |t| > 0 ==> !IsWhite(t[0])
    decreases |s|
  {
    if |s| > 0 && IsWhite(s[0]) then TrimStart(s[1..]) else s
  }

  function TrimEnd(s: string): (t: string)
    ensures |t| <= |s| && t == s[..|t|]
    ensures |t| > 0 ==> !IsWhite(t[|t| - 1])
    decreases |s|
  {
    if |s| > 0 && IsWhite(s[|s| - 1]) then TrimEnd(s[..|s| - 1]) else s
  }

  /** The value of a string of decimal digits. */
  function DigitsValue(s: string): nat
    requires AllDigits(s)
    decreases |s|
  {
    if |s| == 0 then 0 else 10 * DigitsValue(s[..|s| - 1]) + (s[|s| - 1] as int - '0' as int)
  }

  /** `ushort.Parse` with the default integer style: surrounding white space,
    * an optional sign, at least one decimal digit; `None` where it throws
    * (a bad format, or a value above 65535 or below 0). */
  function ParsePort(s: string): Option<u16> {
    var t := TrimEnd(TrimStart(s));
    var signed := |t| > 0 && (t[0] == '+' || t[0] == '-');
    var digits := if signed then t[1..] else t;
    if |digits| == 0 || !AllDigits(digits) then None
    else
      var n := DigitsValue(digits);
      if signed && t[0] == '-' then (if n == 0 then Some(0) else None)
      else if n <= 0xFFFF then Some(n)
      else None
  }

  /** The decimal form of `n`, without leading zeros. */
  function ShowPort(n: nat): (s: string)
    ensures |s| > 0 && AllDigits(s)
    decreases n
  {
    if n < 10 then [('0' as int + n) as char]
    else ShowPort(n / 10) + [('0' as int + n % 10) as char]
  }

  lemma {:induction false} ShowPortValue(n: nat)
    ensures DigitsValue(ShowPort(n)) == n
    decreases n
  {
    if n >= 10 {
      ShowPortValue(n / 10);
      var s := ShowPort(n);
      assert s[..|s| - 1] == ShowPort(n / 10);
    }
  }

  /** Parsing the decimal form of a port gives the port back. */
  lemma {:induction false} ParsePortShow(p: u16)
    ensures ParsePort(ShowPort(p)) == Some(p)
  {
    var s := ShowPort(p);
    assert TrimStart(s) == s by { assert !IsWhite(s[0]); }
    assert TrimEnd(s) == s by { assert !IsWhite(s[|s| - 1]); }
    ShowPortValue(p);
  }

  /** A decimal number above 65535 is refused. */
  lemma {:induction false} ParsePortTooLarge(n: nat)
    requires n > 0xFFFF
    ensures ParsePort(ShowPort(n)) == None
  {
    var s := ShowPort(n);
    assert TrimStart(s) == s by { assert !IsWhite(s[0]); }
    assert TrimEnd(s) == s by { assert !IsWhite(s[|s| - 1]); }
    ShowPortValue(n);
  }

  // ---------------------------------------------------------------------
  // The identifier

  datatype ConnectionIdentifier = ConnectionIdentifier(localIP: string, localPort: u16, remoteIP: string, remotePort: u16, connection: string)

  /** The fields the `catch` leaves. */
  function Unknown(connection: string): ConnectionIdentifier {
    ConnectionIdentifier("Unknown", 0, "Unknown", 0, connection)
  }

  /** The constructor: split on "=>" dropping empty pieces, split the first
    * two pieces on ':', take the address before the first ':' and parse
    * the port after it; a missing piece or a bad port gives `Unknown`. */
  function Parse(connection: string): (c: ConnectionIdentifier)
    ensures c.connection == connection
  {
    var parts := RemoveEmpty(SplitBy(connection, "=>", []));
    if |parts| < 2 then Unknown(connection)
    else
      var local := SplitBy(parts[0], ":", []);
      var remote := SplitBy(parts[1], ":", []);
      if |local| < 2 || |remote| < 2 then Unknown(connection)
      else
        match (ParsePort(local[1]), ParsePort(remote[1]))
        case (Some(lp), Some(rp)) => ConnectionIdentifier(local[0], lp, remote[0], rp, connection)
        case _ => Unknown(connection)
  }

  /** `Equals`: the raw strings are the same. */
  predicate Equal(a: ConnectionIdentifier, b: ConnectionIdentifier) {
    a.connection == b.connection
  }

  /** `GetHashCode`, for a given string hash. */
  function Hash(c: ConnectionIdentifier, stringHash: string -> int): int {
    stringHash(c.connection)
  }

  /** `ToString`. */
  function ToString(c: ConnectionIdentifier): string {
    c.connection
  }

  /** No "=>" starts in `s`. */
  predicate NoArrow(s: string) {
    forall i :: 0 <= i < |s| - 1 ==> !(s[i] == '=' && s[i + 1] == '>')
  }

  /** A piece `x` free of "=>" followed by a separator or nothing. */
  lemma {:induction false} ArrowPass(x: string, y: string, cur: string)
    requires NoArrow(x) && (|y| == 0 || y[0] == '=')
    ensures SplitBy(x + y, "=>", cur) == SplitBy(y, "=>", cur + x)
  {
    forall i | 0 <= i < |x|
      ensures !("=>" <= (x + y)[i..])
    {
      var t := (x + y)[i..];
      if i < |x| - 1 {
        assert t[0] == x[i] && t[1] == x[i + 1];
      } else if |y| > 0 {
        assert t[1] == y[0];
      } else {
        assert |t| == 1;
      }
    }
    SplitPass(x, y, "=>", cur);
  }

  /** "a:p" holds no "=>" when neither part does and the port part starts
    * with no '>'. */
  lemma {:induction false} NoArrowPiece(a: string, p: string)
    requires NoArrow(a) && NoArrow(p) && (|p| == 0 || p[0] != '>')
    ensures NoArrow(a + ":" + p)
  {
    var s := a + ":" + p;
    forall i | 0 <= i < |s| - 1
      ensures !(s[i] == '=' && s[i + 1] == '>')
    {
      if i < |a| - 1 {
        assert s[i] == a[i] && s[i + 1] == a[i + 1];
      } else if i > |a| {
        assert s[i] == p[i - |a| - 1] && s[i + 1] == p[i - |a|];
      }
    }
  }

  /** A piece free of "=>" followed by "=>" is the first piece. */
  lemma {:induction false} ArrowHead(x: string, rest: string)
    requires NoArrow(x) && "=>" <= rest
    ensures SplitBy(x + rest, "=>", []) == [x] + SplitBy(rest[2..], "=>", [])
  {
    var none: string := [];
    ArrowPass(x, rest, none);
    assert none + x == x;
    assert rest == "=>" + rest[2..];
    SplitAt("=>", rest[2..], x);
  }

  /** A piece free of "=>" at the end is the last piece. */
  lemma {:induction false} ArrowLast(y: string)
    requires NoArrow(y)
    ensures SplitBy(y, "=>", []) == [y]
  {
    var none: string := [];
    ArrowPass(y, none, none);
    assert y + none == y && none + y == y;
  }

  /** `k` separators in a row. */
  function Arrows(k: nat): string {
    if k == 0 then [] else "=>" + Arrows(k - 1)
  }

  /** `k` empty pieces. */
  function Empties(k: nat): seq<string> {
    seq(k, _ => [])
  }

  /** Separators in a row give one empty piece each. */
  lemma {:induction false} ArrowsSplit(k: nat, z: string)
    ensures SplitBy(Arrows(k) + z, "=>", []) == Empties(k) + SplitBy(z, "=>", [])
    decreases k
  {
    if k == 0 {
      assert Arrows(0) + z == z;
      assert Empties(0) + SplitBy(z, "=>", []) == SplitBy(z, "=>", []);
    } else {
      assert Arrows(k) + z == "=>" + (Arrows(k - 1) + z);
      SplitAt("=>", Arrows(k - 1) + z, []);
      ArrowsSplit(k - 1, z);
      assert [[]] + Empties(k - 1) == Empties(k);
    }
  }

  lemma {:induction false} RemoveEmpties(k: nat, rest: seq<string>)
    ensures RemoveEmpty(Empties(k) + rest) == RemoveEmpty(rest)
    decreases k
  {
    if k > 0 {
      assert (Empties(k) + rest)[1..] == Empties(k - 1) + rest;
      RemoveEmpties(k - 1, rest);
    } else {
      assert Empties(k) + rest == rest;
    }
  }

  /** Splitting "x=>y", with any number of empty pieces between and possibly
    * followed by more "=>"-separated pieces, gives `x` and `y` as the first
    * two non-empty pieces. */
  lemma {:induction false} ArrowSplit(x: string, k: nat, y: string, more: string)
    requires NoArrow(x) && NoArrow(y) && x != [] && y != []
    requires |more| == 0 || "=>" <= more
    ensures var parts := RemoveEmpty(SplitBy(x + Arrows(k + 1) + y + more, "=>", []));
            |parts| >= 2 && parts[0] == x && parts[1] == y
  {
    var z := y + more;
    var rest := Arrows(k + 1) + z;
    assert x + Arrows(k + 1) + y + more == x + rest;
    assert rest == "=>" + (Arrows(k) + z);
    ArrowHead(x, rest);
    assert rest[2..] == Arrows(k) + z;
    ArrowsSplit(k, z);
    var tail := ArrowTail(y, more);
    assert SplitBy(x + rest, "=>", []) == [x] + (Empties(k) + ([y] + tail));
    RemoveEmptyConcat([x], Empties(k) + ([y] + tail));
    RemoveEmpties(k, [y] + tail);
    assert RemoveEmpty([x]) == [x] by { assert [x][1..] == []; }
    assert ([y] + tail)[1..] == tail;
  }

  /** A piece free of "=>" followed by a separator or nothing is the first
    * piece; `tail` is what follows it. */
  lemma {:induction false} ArrowTail(y: string, more: string) returns (tail: seq<string>)
    requires NoArrow(y) && (|more| == 0 || "=>" <= more)
    ensures SplitBy(y + more, "=>", []) == [y] + tail
  {
    if |more| == 0 {
      assert y + more == y;
      ArrowLast(y);
      tail := [];
    } else {
      ArrowHead(y, more);
      tail := SplitBy(more[2..], "=>", []);
    }
  }

  /** Splitting "a:p" on ':', possibly followed by more ':'-separated pieces,
    * gives `a` and `p` as the first two pieces. */
  lemma {:induction false} ColonSplitMore(a: string, p: string, pt: string)
    requires ':' !in a && ':' !in p && (|pt| == 0 || pt[0] == ':')
    ensures var pieces := SplitBy(a + ":" + p + pt, ":", []);
            |pieces| >= 2 && pieces[0] == a && pieces[1] == p
  {
    var none: string := [];
    var rest := ":" + (p + pt);
    forall i | 0 <= i < |a| ensures !(":" <= (a + rest)[i..]) {
      assert (a + rest)[i..][0] == a[i];
    }
    SplitPass(a, rest, ":", none);
    assert a + ":" + p + pt == a + rest && none + a == a;
    SplitAt(":", p + pt, a);
    forall i | 0 <= i < |p| ensures !(":" <= (p + pt)[i..]) {
      assert (p + pt)[i..][0] == p[i];
    }
    SplitPass(p, pt, ":", none);
    assert none + p == p;
    if |pt| == 0 {
      assert SplitBy(pt, ":", p) == [p];
    } else {
      assert pt == ":" + pt[1..];
      SplitAt(":", pt[1..], p);
    }
  }

  /** A string "x=>y" with `x` = "a:p" and `y` = "b:q" parses into the
    * address before each ':' and the port after it when both ports parse,
    * and into `Unknown` otherwise. Further ':'-separated pieces after either
    * port (`pt`, `qt`), empty "=>"-separated pieces between the two sides
    * (`k` of them, so `k + 1` separators) and further "=>"-separated pieces
    * after the remote side (`more`) are ignored. */
  lemma {:induction false} ParseShape(x: string, a: string, p: string, pt: string, k: nat,
                                      y: string, b: string, q: string, qt: string, more: string)
    requires x == a + ":" + p + pt && y == b + ":" + q + qt
    requires ':' !in a && ':' !in p && ':' !in b && ':' !in q
    requires (|pt| == 0 || pt[0] == ':') && (|qt| == 0 || qt[0] == ':')
    requires NoArrow(x) && NoArrow(y)
    requires |more| == 0 || "=>" <= more
    ensures var s := x + Arrows(k + 1) + y + more;
            Parse(s) == match (ParsePort(p), ParsePort(q))
                        case (Some(lp), Some(rp)) => ConnectionIdentifier(a, lp, b, rp, s)
                        case _ => Unknown(s)
  {
    assert x[|a|] == ':' && y[|b|] == ':';
    ArrowSplit(x, k, y, more);
    ColonSplitMore(a, p, pt);
    ColonSplitMore(b, q, qt);
  }

  /** A well-formed connection string parses into its four parts. */
  lemma {:induction false} ParseWellFormed(a: string, lp: u16, b: string, rp: u16)
    requires ':' !in a && ':' !in b && NoArrow(a) && NoArrow(b)
    ensures var s := a + ":" + ShowPort(lp) + "=>" + b + ":" + ShowPort(rp);
            Parse(s) == ConnectionIdentifier(a, lp, b, rp, s)
  {
    var p := ShowPort(lp);
    var q := ShowPort(rp);
    DigitsFree(p);
    DigitsFree(q);
    NoArrowPiece(a, p);
    NoArrowPiece(b, q);
    ParsePortShow(lp);
    ParsePortShow(rp);
    var x, y := a + ":" + p, b + ":" + q;
    ParseShape(x, a, p, [], 0, y, b, q, [], []);
    assert Arrows(1) == "=>";
    var u := x + "=>";
    assert x + Arrows(1) + y + [] == u + y;
    ConcatAssoc(u, b + ":", q);
    ConcatAssoc(u, b, ":");
  }

  lemma {:induction false} ConcatAssoc(u: string, v: string, w: string)
    ensures u + (v + w) == u + v + w
  {
  }

  lemma {:induction false} DigitsFree(s: string)
    requires AllDigits(s)
    ensures ':' !in s && NoArrow(s) && (|s| == 0 || s[0] != '>')
  {
    assert forall i :: 0 <= i < |s| ==> s[i] != ':' && s[i] != '=';
  }

  /** A string with no "=>" has at most one piece, so it is `Unknown`. */
  lemma {:induction false} ParseNoArrow(s: string)
    requires NoArrow(s)
    ensures Parse(s) == Unknown(s)
  {
    ArrowLast(s);
    assert |RemoveEmpty([s])| <= 1 by {
      assert [s][1..] == [];
    }
  }

  /** Empty "=>"-separated pieces in front are skipped. */
  lemma {:induction false} ParseSkipsLeadingArrow(s: string)
    ensures Parse("=>" + s) == Parse(s).(connection := "=>" + s)
  {
    SplitAt("=>", s, []);
    var empty: seq<string> := [[]];
    RemoveEmptyConcat(empty, SplitBy(s, "=>", []));
    assert RemoveEmpty(empty) == [] by { assert empty[1..] == []; }
    assert [[]] + SplitBy(s, "=>", []) == empty + SplitBy(s, "=>", []);
  }

  /** Two identifiers are equal exactly when their strings are, so two
    * different malformed strings are unequal though both parse to `Unknown`. */
  lemma {:induction false} EqualIffSameString(s: string, t: string)
    ensures Equal(Parse(s), Parse(t)) <==> s == t
  {
  }

  lemma {:induction false} MalformedUnequal()
    ensures Parse("a") == Unknown("a") && Parse("b") == Unknown("b")
    ensures !Equal(Parse("a"), Parse("b"))
  {
    ParseNoArrow("a");
    ParseNoArrow("b");
  }

  /** Equal identifiers hash alike, and `ToString` gives back the string. */
  lemma {:induction false} HashToString(c: ConnectionIdentifier, d: ConnectionIdentifier, stringHash: string -> int, s: string)
    ensures Equal(c, d) ==> Hash(c, stringHash) == Hash(d, stringHash)
    ensures ToString(Parse(s)) == s
  {
  }
}
