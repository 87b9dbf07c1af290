/**
 * String helpers used by both the TypeScript and the Python side: joining lines,
 * the "- text" bullet lists every prompt and every narrative is made of, splitting
 * on a separator character, whitespace stripping and the ASCII filter.
 */
module Text {

  /** `parts.join(sep)` in JavaScript, `sep.join(parts)` in Python. */
  function Join(parts: seq<string>, sep: string): string
  {
    if |parts| == 0 then ""
    else if |parts| == 1 then parts[0]
    else parts[0] + sep + Join(parts[1..], sep)
  }

  /** Each text prefixed with "- ". */
  function Bullets(texts: seq<string>): (r: seq<string>)
    ensures |r| == |texts|
    ensures forall i :: 0 <= i < |texts| ==> r[i] == "- " + texts[i]
  {
    if |texts| == 0 then [] else ["- " + texts[0]] + Bullets(texts[1..])
  }

  /** The bullet list "- t1\n- t2\n..." used for story contexts and narratives. */
  function Bulleted(texts: seq<string>): string
  {
    Join(Bullets(texts), "\n")
  }

  /** Joining two non-empty lists is joining each and putting one separator between. */
  lemma {:induction false} JoinAppend(a: seq<string>, b: seq<string>, sep: string)
    requires |a| >= 1 && |b| >= 1
    ensures Join(a + b, sep) == Join(a, sep) + sep + Join(b, sep)
  {
    if |a| == 1 {
      assert (a + b)[1..] == b;
    } else {
      assert (a + b)[1..] == a[1..] + b;
      JoinAppend(a[1..], b, sep);
    }
  }

  /** Bullets distribute over concatenation. */
  lemma {:induction false} BulletsAppend(a: seq<string>, b: seq<string>)
    ensures Bullets(a + b) == Bullets(a) + Bullets(b)
  {
  }

  /** Python's `s.split(c)`: the pieces between occurrences of `c`, always at least one. */
  function SplitOn(s: string, c: char): (r: seq<string>)
    ensures |r| >= 1
    ensures forall i :: 0 <= i < |r| ==> c !in r[i]
  {
    if |s| == 0 then [""]
    else if s[0] == c then [""] + SplitOn(s[1..], c)
    else
      var rest := SplitOn(s[1..], c);
      [[s[0]] + rest[0]] + rest[1..]
  }

  lemma {:induction false} SplitNoSeparator(s: string, c: char)
    requires c !in s
    ensures SplitOn(s, c) == [s]
  {
    if |s| > 0 {
      SplitNoSeparator(s[1..], c);
      assert [s[0]] + s[1..] == s;
    }
  }

  lemma {:induction false} SplitAfterPiece(a: string, b: string, c: char)
    requires c !in a
    ensures SplitOn(a + [c] + b, c) == [a] + SplitOn(b, c)
  {
    if |a| == 0 {
      assert a + [c] + b == [c] + b;
      assert ([c] + b)[1..] == b;
    } else {
      assert (a + [c] + b)[0] == a[0];
      assert (a + [c] + b)[1..] == a[1..] + [c] + b;
      SplitAfterPiece(a[1..], b, c);
      assert [a[0]] + a[1..] == a;
    }
  }

  /** Splitting undoes joining, as long as no piece contains the separator. */
  lemma {:induction false} SplitJoin(parts: seq<string>, c: char)
    requires |parts| >= 1
    requires forall i :: 0 <= i < |parts| ==> c !in parts[i]
    ensures SplitOn(Join(parts, [c]), c) == parts
  {
    if |parts| == 1 {
      SplitNoSeparator(parts[0], c);
    } else {
      SplitJoin(parts[1..], c);
      SplitAfterPiece(parts[0], Join(parts[1..], [c]), c);
      assert [parts[0]] + parts[1..] == parts;
    }
  }

  /** The characters Python's `str.isspace` accepts (what `str.strip()` removes). */
  predicate IsPySpace(ch: char)
  {
    var c := ch as int;
    c == 0x20 || (0x09 <= c <= 0x0D) || (0x1C <= c <= 0x1F) || c == 0x85 || c == 0xA0
    || c == 0x1680 || (0x2000 <= c <= 0x200A) || c == 0x2028 || c == 0x2029
    || c == 0x202F || c == 0x205F || c == 0x3000
  }

  /** How many whitespace characters open `s`. */
  function LeadingSpaces(s: string): (n: nat)
    ensures n <= |s|
    ensures forall k :: 0 <= k < n ==> IsPySpace(s[k])
    ensures n < |s| ==> !IsPySpace(s[n])
  {
    if |s| == 0 || !IsPySpace(s[0]) then 0 else 1 + LeadingSpaces(s[1..])
  }

  /** How many whitespace characters close `s`. */
  function TrailingSpaces(s: string): (n: nat)
    ensures n <= |s|
    ensures forall k :: |s| - n <= k < |s| ==> IsPySpace(s[k])
    ensures n < |s| ==> !IsPySpace(s[|s| - 1 - n])
  {
    if |s| == 0 || !IsPySpace(s[|s| - 1]) then 0 else 1 + TrailingSpaces(s[..|s| - 1])
  }

  /** Python's `s.strip()`. */
  function Strip(s: string): (r: string)
  {
    var t := s[LeadingSpaces(s)..];
    t[..|t| - TrailingSpaces(t)]
  }

  /**
   * What `strip` keeps: a slice of `s` that is empty exactly when `s` is all
   * whitespace, and otherwise neither starts nor ends with whitespace.
   */
  lemma StripIsTrimmedSlice(s: string)
    ensures var r := Strip(s);
      && r == s[LeadingSpaces(s)..LeadingSpaces(s) + |r|]
      && (r == [] <==> forall k :: 0 <= k < |s| ==> IsPySpace(s[k]))
      && (r != [] ==> !IsPySpace(r[0]) && !IsPySpace(r[|r| - 1]))
  {
    var n := LeadingSpaces(s);
    var t := s[n..];
    var m := TrailingSpaces(t);
    if n < |s| {
      assert t[0] == s[n];
      assert m < |t|;
    }
  }

  /** `''.join(ch for ch in s if ord(ch) < 128)`. */
  function AsciiOnly(s: string): (r: string)
    ensures forall i :: 0 <= i < |r| ==> (r[i] as int) < 128
    ensures forall ch :: ch in r <==> ch in s && (ch as int) < 128
    ensures |r| <= |s|
  {
    if |s| == 0 then ""
    else if (s[0] as int) < 128 then [s[0]] + AsciiOnly(s[1..])
    else AsciiOnly(s[1..])
  }

  predicate IsAscii(s: string)
  {
    forall i :: 0 <= i < |s| ==> (s[i] as int) < 128
  }

  predicate StartsWith(s: string, prefix: string)
  {
    |prefix| <= |s| && s[..|prefix|] == prefix
  }

  predicate EndsWith(s: string, suffix: string)
  {
    |suffix| <= |s| && s[|s| - |suffix|..] == suffix
  }
}
