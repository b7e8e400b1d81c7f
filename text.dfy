/**
 * String helpers shared by the pages: the JavaScript string operations the
 * playground and the filter pages rely on (`toLowerCase`, `includes`,
 * `startsWith`, template interpolation of a whole number, `Array.join`),
 * written out over `seq<char>`.
 */
module Text {

  /** ASCII lowering of one character; every other character is left alone. */
  function AsciiLower(c: char): char
  {
    if 'A' <= c <= 'Z' then (c as int + 32) as char else c
  }

  /** `s.toLowerCase()`, restricted to ASCII letters. */
  function Lower(s: string): (r: string)
    ensures |r| == |s|
    ensures forall i :: 0 <= i < |s| ==> r[i] == AsciiLower(s[i])
  {
    if s == [] then [] else [AsciiLower(s[0])] + Lower(s[1..])
  }

  /** Lowering twice is lowering once: a lowered query is already in normal form. */
  lemma LowerIdempotent(s: string)
    ensures Lower(Lower(s)) == Lower(s)
  {
  }

  /** `s.startsWith(prefix)`: `s` is `prefix` followed by something. */
  predicate StartsWith(s: string, prefix: string)
    ensures StartsWith(s, prefix) <==> exists rest :: s == prefix + rest
  {
    var found := |prefix| <= |s| && s[..|prefix|] == prefix;
    assert found ==> s == prefix + s[|prefix|..];
    found
  }

  /** The reference reading of a substring occurrence: `needle` sits at offset `i` of `hay`. */
  predicate OccursAt(hay: string, needle: string, i: nat)
  {
    i + |needle| <= |hay| && hay[i..i + |needle|] == needle
  }

  /** `hay.includes(needle)`: try every start position from the left; true exactly when the needle occurs somewhere. */
  predicate Includes(hay: string, needle: string)
    ensures Includes(hay, needle) <==> exists i: nat :: OccursAt(hay, needle, i)
    decreases |hay|
  {
    if StartsWith(hay, needle) then
      assert OccursAt(hay, needle, 0) by {
        var rest :| hay == needle + rest;
        assert hay[..|needle|] == needle;
      }
      true
    else if |hay| == 0 then
      assert |needle| > 0;
      false
    else
      var found := Includes(hay[1..], needle);
      assert found ==> exists i: nat :: OccursAt(hay, needle, i) by {
        if found {
          var j: nat :| OccursAt(hay[1..], needle, j);
          assert hay[1..][j..j + |needle|] == hay[j + 1..j + 1 + |needle|];
          assert OccursAt(hay, needle, j + 1);
        }
      }
      assert (exists i: nat :: OccursAt(hay, needle, i)) ==> found by {
        if exists i: nat :: OccursAt(hay, needle, i) {
          var i: nat :| OccursAt(hay, needle, i);
          assert OccursAt(hay, needle, 0) ==> StartsWith(hay, needle);
          assert hay[1..][i - 1..i - 1 + |needle|] == hay[i..i + |needle|];
          assert OccursAt(hay[1..], needle, i - 1);
        }
      }
      found
  }

  /** The empty needle occurs in every string. */
  lemma IncludesEmpty(hay: string)
    ensures Includes(hay, "")
  {
    assert OccursAt(hay, "", 0);
  }

  /** A match that holds letter for letter still holds once both sides are lowered. */
  lemma IncludesLower(hay: string, needle: string)
    requires Includes(hay, needle)
    ensures Includes(Lower(hay), Lower(needle))
  {
    var i: nat :| OccursAt(hay, needle, i);
    var lowHay, lowNeedle := Lower(hay), Lower(needle);
    forall j | 0 <= j < |needle|
      ensures lowHay[i + j] == lowNeedle[j]
    {
      assert hay[i + j] == needle[j];
    }
    assert lowHay[i..i + |needle|] == lowNeedle;
    assert OccursAt(lowHay, lowNeedle, i);
  }

  predicate IsDigit(c: char)
  {
    '0' <= c <= '9'
  }

  function DigitChar(d: nat): (c: char)
    requires d < 10
    ensures IsDigit(c) && c as int - '0' as int == d
  {
    ('0' as int + d) as char
  }

  /** `${n}` in a template literal for a whole number: its decimal digits, no leading zero. */
  function NatToString(n: nat): (s: string)
    ensures |s| >= 1
    ensures forall i :: 0 <= i < |s| ==> IsDigit(s[i])
    ensures s[0] == '0' ==> n == 0
    decreases n
  {
    if n < 10 then [DigitChar(n)] else NatToString(n / 10) + [DigitChar(n % 10)]
  }

  /** Reads a string of decimal digits back as a number (the partner of NatToString). */
  function ParseDecimal(s: string): nat
    requires forall i :: 0 <= i < |s| ==> IsDigit(s[i])
    decreases |s|
  {
    if s == [] then 0
    else
      assert IsDigit(s[|s| - 1]);
      ParseDecimal(s[..|s| - 1]) * 10 + (s[|s| - 1] as int - '0' as int)
  }

  /** Rendering a number and reading it back gives the number. */
  lemma {:induction false} ParseNatToString(n: nat)
    ensures ParseDecimal(NatToString(n)) == n
    decreases n
  {
    var s := NatToString(n);
    if n < 10 {
      assert s[..|s| - 1] == [];
    } else {
      assert s[..|s| - 1] == NatToString(n / 10);
      ParseNatToString(n / 10);
    }
  }

  /** Two numbers with the same rendering are equal. */
  lemma NatToStringInjective(m: nat, n: nat)
    requires NatToString(m) == NatToString(n)
    ensures m == n
  {
    ParseNatToString(m);
    ParseNatToString(n);
  }

  /** `lines.join(sep)`: the first line comes first, and every character comes from a line or the separator. */
  function Join(lines: seq<string>, sep: string): (text: string)
    ensures |lines| >= 1 ==> StartsWith(text, lines[0])
    ensures forall c :: c in text ==> c in sep || exists k :: 0 <= k < |lines| && c in lines[k]
  {
    if |lines| == 0 then ""
    else if |lines| == 1 then lines[0]
    else lines[0] + sep + Join(lines[1..], sep)
  }

  /** The first position of `c` in `s`. */
  function IndexOfChar(s: string, c: char): (i: nat)
    requires c in s
    ensures i < |s| && s[i] == c && c !in s[..i]
  {
    if s[0] == c then 0
    else
      assert c in s[1..];
      var j := IndexOfChar(s[1..], c);
      assert s[..j + 1] == [s[0]] + s[1..][..j];
      j + 1
  }

  /** Cuts a text at every newline: the reverse of joining with "\n". */
  function SplitLines(s: string): (r: seq<string>)
    ensures |r| >= 1
    decreases |s|
  {
    if '\n' in s then
      var i := IndexOfChar(s, '\n');
      [s[..i]] + SplitLines(s[i + 1..])
    else [s]
  }

  /** Joining lines without newlines by "\n" and cutting the text again gives the lines back. */
  lemma {:induction false} SplitJoin(lines: seq<string>)
    requires |lines| >= 1
    requires forall k :: 0 <= k < |lines| ==> '\n' !in lines[k]
    ensures SplitLines(Join(lines, "\n")) == lines
  {
    if |lines| == 1 {
    } else {
      var head, rest := lines[0], Join(lines[1..], "\n");
      var s := head + "\n" + rest;
      assert s == Join(lines, "\n");
      assert s[|head|] == '\n';
      var i := IndexOfChar(s, '\n');
      assert i == |head|;
      assert s[..i] == head;
      assert s[i + 1..] == rest;
      SplitJoin(lines[1..]);
      assert SplitLines(s) == [head] + lines[1..];
    }
  }
}
