/** The string rules the builder applies to names: the `<vpc>-<name>` long
    names, `name.split('-')[-1]`, Python 2's `int(...)` on a string,
    `str.lower()`, `str.lstrip(chars)` and the instance hostname. */
module Naming {
  import opened Wrappers

  /** `'{}-{}'.format(vpc, name)`: the Name tag given to route tables,
      subnets and security groups. */
  function LongName(vpc: string, name: string): string
  {
    vpc + "-" + name
  }

  /** `s.split('-')[-1]`: the text after the last '-', or all of `s` when it
      holds no '-'. */
  function LastField(s: string): (r: string)
    ensures '-' !in r
    ensures |r| <= |s|
    ensures |r| < |s| ==> s[|s| - |r| - 1] == '-'
  {
    if s == [] then []
    else if s[|s| - 1] == '-' then []
    else LastField(s[..|s| - 1]) + [s[|s| - 1]]
  }

  /** The last field is the tail of the name. */
  lemma {:induction false} LastFieldIsSuffix(s: string)
    ensures LastField(s) == s[|s| - |LastField(s)|..]
  {
    if s != [] && s[|s| - 1] != '-' {
      var init := s[..|s| - 1];
      LastFieldIsSuffix(init);
      assert init[|init| - |LastField(init)|..] + [s[|s| - 1]] == s[|s| - |LastField(init)| - 1..];
    }
  }

  /** The last field of `prefix-field` is `field` whenever `field` holds no '-'. */
  lemma {:induction false} LastFieldAfterDash(prefix: string, field: string)
    requires '-' !in field
    ensures LastField(prefix + "-" + field) == field
  {
    var s := prefix + "-" + field;
    if field != [] {
      var init := field[..|field| - 1];
      assert field[|field| - 1] in field;
      assert s[..|s| - 1] == prefix + "-" + init;
      assert forall c :: c in init ==> c in field;
      LastFieldAfterDash(prefix, init);
      assert field == init + [field[|field| - 1]];
    }
  }

  /** `s.lstrip(chars)`: `s` without its longest prefix made of `chars`. */
  function LStrip(s: string, chars: set<char>): string
  {
    if s != [] && s[0] in chars then LStrip(s[1..], chars) else s
  }

  /** `lstrip` drops a prefix made of `chars` and keeps the rest, which does
      not start with one of them. */
  lemma {:induction false} LStripSpec(s: string, chars: set<char>)
    ensures var r := LStrip(s, chars);
            && |r| <= |s|
            && (forall i :: 0 <= i < |r| ==> r[i] == s[|s| - |r| + i])
            && (forall i :: 0 <= i < |s| - |r| ==> s[i] in chars)
            && (r == [] || r[0] !in chars)
  {
    if s != [] && s[0] in chars {
      var r := LStrip(s[1..], chars);
      LStripSpec(s[1..], chars);
      forall i | 0 <= i < |r| ensures r[i] == s[|s| - |r| + i] {
        assert s[1..][|s| - 1 - |r| + i] == s[|s| - |r| + i];
      }
      forall i | 0 < i < |s| - |r| ensures s[i] in chars {
        assert s[1..][i - 1] == s[i];
      }
    }
  }

  /** `s.rstrip(chars)`: `s` without its longest suffix made of `chars`. */
  function RStrip(s: string, chars: set<char>): string
  {
    if s != [] && s[|s| - 1] in chars then RStrip(s[..|s| - 1], chars) else s
  }

  /** `rstrip` drops a suffix made of `chars` and keeps the rest, which does
      not end with one of them. */
  lemma {:induction false} RStripSpec(s: string, chars: set<char>)
    ensures var r := RStrip(s, chars);
            && |r| <= |s|
            && (forall i :: 0 <= i < |r| ==> r[i] == s[i])
            && (forall i :: |r| <= i < |s| ==> s[i] in chars)
            && (r == [] || r[|r| - 1] !in chars)
  {
    if s != [] && s[|s| - 1] in chars {
      var r := RStrip(s[..|s| - 1], chars);
      RStripSpec(s[..|s| - 1], chars);
      forall i | 0 <= i < |r| ensures r[i] == s[i] {
        assert s[..|s| - 1][i] == s[i];
      }
      forall i | |r| <= i < |s| - 1 ensures s[i] in chars {
        assert s[..|s| - 1][i] == s[i];
      }
    }
  }

  /** The characters Python 2's `str.strip()` removes. */
  const Whitespace: set<char> := {' ', '\t', '\n', '\r', '\U{B}', '\U{C}'}

  predicate IsDigit(c: char)
  {
    '0' <= c <= '9'
  }

  predicate AllDigits(d: string)
  {
    forall i :: 0 <= i < |d| ==> IsDigit(d[i])
  }

  function DigitValue(c: char): nat
    requires IsDigit(c)
  {
    c as int - '0' as int
  }

  /** The value of a string of decimal digits. */
  function DigitsValue(d: string): nat
    requires AllDigits(d)
  {
    if d == [] then 0
    else DigitsValue(d[..|d| - 1]) * 10 + DigitValue(d[|d| - 1])
  }

  /** `s.strip()`. */
  function Strip(s: string): string
  {
    RStrip(LStrip(s, Whitespace), Whitespace)
  }

  /** The literals `int()` accepts once the surrounding whitespace is gone:
      one or more ASCII digits, or a sign, optional whitespace, and one or
      more ASCII digits. */
  predicate IntLiteral(t: string)
  {
    if t != [] && (t[0] == '+' || t[0] == '-') then SpacedDigits(t[1..])
    else t != [] && AllDigits(t)
  }

  /** Optional whitespace, then one or more ASCII digits. */
  predicate SpacedDigits(u: string)
    decreases |u|
  {
    u != [] && if u[0] in Whitespace then SpacedDigits(u[1..]) else AllDigits(u)
  }

  lemma {:induction false} SpacedDigitsStrip(u: string)
    ensures SpacedDigits(u) <==> LStrip(u, Whitespace) != [] && AllDigits(LStrip(u, Whitespace))
    decreases |u|
  {
    if u != [] && u[0] in Whitespace {
      SpacedDigitsStrip(u[1..]);
    }
  }

  /** Leading whitespace in front of a digit is dropped by `lstrip`. */
  lemma {:induction false} LStripSpaces(spaces: string, digits: string)
    requires forall i :: 0 <= i < |spaces| ==> spaces[i] in Whitespace
    requires digits != [] && IsDigit(digits[0])
    ensures LStrip(spaces + digits, Whitespace) == digits
    decreases |spaces|
  {
    if spaces == [] {
      assert spaces + digits == digits;
      assert digits[0] !in Whitespace;
    } else {
      assert (spaces + digits)[1..] == spaces[1..] + digits;
      LStripSpaces(spaces[1..], digits);
    }
  }

  /** Python 2's `int(s)` on a string: surrounding whitespace, an optional
      sign, more whitespace, then one or more decimal digits (as
      `PyOS_strtol` reads them: the sign, then `PyOS_strtoul`, which skips
      whitespace again); anything else raises ValueError (`None` here). */
  function ParseInt(s: string): (r: Option<int>)
    ensures r.Some? <==> IntLiteral(Strip(s))
    ensures (forall i :: 0 <= i < |s| ==> s[i] in Whitespace) ==> r.None?
    ensures r.Some? && r.value < 0 ==> '-' in s
  {
    var l := LStrip(s, Whitespace);
    var t := Strip(s);
    LStripSpec(s, Whitespace);
    RStripSpec(l, Whitespace);
    assert t != [] ==> t[0] == s[|s| - |l|];
    if t != [] && (t[0] == '+' || t[0] == '-') then
      var d := LStrip(t[1..], Whitespace);
      SpacedDigitsStrip(t[1..]);
      if d != [] && AllDigits(d) then
        Some(if t[0] == '-' then -(DigitsValue(d) as int) else DigitsValue(d))
      else None
    else if t != [] && AllDigits(t) then Some(DigitsValue(t))
    else None
  }

  /** The value of an accepted literal: its digits read in decimal, negated
      after a '-'. */
  lemma {:induction false} ParseIntValue(s: string, sign: string, spaces: string, digits: string)
    requires Strip(s) == sign + spaces + digits
    requires sign == "" || sign == "+" || sign == "-"
    requires sign == "" ==> spaces == ""
    requires forall i :: 0 <= i < |spaces| ==> spaces[i] in Whitespace
    requires digits != [] && AllDigits(digits)
    ensures ParseInt(s) == Some(if sign == "-" then -(DigitsValue(digits) as int) else DigitsValue(digits))
  {
    var t := Strip(s);
    assert IsDigit(digits[0]);
    if sign == "" {
      assert t == digits;
    } else {
      assert t[0] == sign[0];
      assert t[1..] == spaces + digits;
      LStripSpaces(spaces, digits);
    }
  }

  /** A plain run of digits parses to its decimal value. */
  lemma {:induction false} ParseDigits(d: string)
    requires d != [] && AllDigits(d)
    ensures ParseInt(d) == Some(DigitsValue(d))
  {
    assert IsDigit(d[0]) && IsDigit(d[|d| - 1]);
    assert d[0] !in Whitespace && d[|d| - 1] !in Whitespace;
    assert LStrip(d, Whitespace) == d;
    assert RStrip(d, Whitespace) == d;
    assert Strip(d) == d;
    assert d[0] != '+' && d[0] != '-';
  }

  /** Whitespace between the sign and the digits is skipped, as
      `PyOS_strtoul` does. */
  lemma SpaceAfterSign()
    ensures ParseInt("+ 1") == Some(1)
    ensures ParseInt(" - 12 ") == Some(-12)
  {
    assert LStrip(" - 12 ", Whitespace) == "- 12 ";
    assert Strip(" - 12 ") == "- 12";
    assert "- 12"[1..] == " 12";
    assert LStrip(" 12", Whitespace) == "12";
    assert DigitsValue("12") == 12 by {
      assert "12"[..1] == "1";
    }
    assert "+ 1"[1..] == " 1";
    assert LStrip(" 1", Whitespace) == "1";
  }

  /** Python 2 `str.lower()` on a byte string: ASCII letters only. */
  function LowerChar(c: char): char
  {
    if 'A' <= c <= 'Z' then (c as int + 32) as char else c
  }

  function Lower(s: string): string
  {
    seq(|s|, i requires 0 <= i < |s| => LowerChar(s[i]))
  }

  /** Line 361-362 of tag_instances: `vpc + '-' + role + '-' + id.lstrip('i-')`.
      `lstrip` drops every leading 'i' and '-', not the prefix "i-". */
  function Hostname(vpc: string, role: string, instanceId: string): string
  {
    vpc + "-" + role + "-" + LStrip(instanceId, {'i', '-'})
  }

  /** The hostname is the VPC name and the role, each followed by a dash, then
      a tail of the instance id that does not start with an 'i' or a '-'. */
  lemma HostnameShape(vpc: string, role: string, instanceId: string)
    ensures var r := Hostname(vpc, role, instanceId);
            |r| >= |vpc| + |role| + 2 && r[..|vpc| + |role| + 2] == vpc + "-" + role + "-"
    ensures var id := Hostname(vpc, role, instanceId)[|vpc| + |role| + 2..];
            |id| <= |instanceId| && id == instanceId[|instanceId| - |id|..] && (id == [] || id[0] !in {'i', '-'})
  {
    var id := LStrip(instanceId, {'i', '-'});
    LStripSpec(instanceId, {'i', '-'});
    assert id == instanceId[|instanceId| - |id|..];
    var r := vpc + "-" + role + "-" + id;
    assert r[..|vpc| + |role| + 2] == vpc + "-" + role + "-" && r[|vpc| + |role| + 2..] == id;
  }

  /** For an EC2 id `i-<hex>` the hostname ends in the hex part, because no
      hex digit is an 'i' or a '-'. */
  lemma {:induction false} HostnameOfInstanceId(vpc: string, role: string, hex: string)
    requires hex == [] || hex[0] !in {'i', '-'}
    ensures Hostname(vpc, role, "i-" + hex) == vpc + "-" + role + "-" + hex
  {
    var id := "i-" + hex;
    assert id[1..] == "-" + hex && id[1..][1..] == hex;
    assert LStrip(id, {'i', '-'}) == LStrip("-" + hex, {'i', '-'}) == LStrip(hex, {'i', '-'}) == hex;
  }
}
