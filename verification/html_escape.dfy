/**
 * PHP's `htmlspecialchars` with ENT_QUOTES, in the two configurations the bundle uses:
 * the props attribute of a React mount point (ENT_HTML5, no double encoding) and the
 * error comment of the Vite extension (PHP 8.1 defaults: ENT_HTML401, double encoding).
 *
 * With double encoding off, an `&` that already starts a character reference is copied
 * unchanged: a named reference `&name;` whose name is in the entity table, or a numeric
 * reference `&#digits;` / `&#xhex;` whose value is at most U+10FFFF.
 */
module HtmlEscape {
  import opened Strings

  /** Which entity the apostrophe becomes: `&apos;` for ENT_HTML5, `&#039;` for ENT_HTML401. */
  datatype Doctype = Html5 | Html401

  /** The settings of one `htmlspecialchars` call; `entityNames` is the doctype's named-entity table. */
  datatype Flags = Flags(doctype: Doctype, doubleEncode: bool, entityNames: set<string>)

  /** `htmlspecialchars($s, ENT_QUOTES | ENT_HTML5, 'UTF-8', false)`, given the HTML5 entity table. */
  function AttributeFlags(html5Names: set<string>): Flags
  {
    Flags(Html5, false, html5Names)
  }

  /** `htmlspecialchars($s)` with PHP 8.1's default flags; the table is never consulted. */
  const DefaultFlags: Flags := Flags(Html401, true, {})

  /** The names of the five entities the escaper itself writes in ENT_HTML5 mode. */
  const BasicEntityNames: set<string> := {"amp", "lt", "gt", "quot", "apos"}

  const MaxCodePoint: nat := 0x10FFFF

  /** The characters `htmlspecialchars` replaces under ENT_QUOTES. */
  predicate IsSpecial(c: char) {
    c == '&' || c == '<' || c == '>' || c == '"' || c == '\''
  }

  /** The characters that could open a tag or close a quoted attribute value. */
  predicate IsMarkup(c: char) {
    c == '<' || c == '>' || c == '"' || c == '\''
  }

  predicate IsAlnum(c: char) {
    ('a' <= c <= 'z') || ('A' <= c <= 'Z') || ('0' <= c <= '9')
  }

  predicate IsHexDigit(c: char) {
    ('0' <= c <= '9') || ('a' <= c <= 'f') || ('A' <= c <= 'F')
  }

  /** The characters that may stand between `&` and `;` of a recognised reference. */
  predicate IsReferenceChar(c: char) {
    IsAlnum(c) || c == '#'
  }

  function HexDigitValue(c: char): nat
    requires IsHexDigit(c)
  {
    if '0' <= c <= '9' then c as int - '0' as int
    else if 'a' <= c <= 'f' then c as int - 'a' as int + 10
    else c as int - 'A' as int + 10
  }

  /** The value `strtol` reads from a run of digits in base 16 or base 10. */
  function NumberValue(digits: string, hex: bool): nat
    requires forall i :: 0 <= i < |digits| ==> if hex then IsHexDigit(digits[i]) else IsDigit(digits[i])
  {
    if digits == [] then 0
    else
      var last := digits[|digits| - 1];
      var d := if hex then HexDigitValue(last) else DigitValue(last);
      (if hex then 16 else 10) * NumberValue(digits[..|digits| - 1], hex) + d
  }

  /**
   * Length of `digits;` at the start of `v`, or 0: at least one digit of the base,
   * then `;`, and a value no larger than the last Unicode code point.
   */
  function DigitsLength(v: string, hex: bool): (n: nat)
    ensures n > 0 ==> 2 <= n <= |v| && v[n - 1] == ';'
    ensures forall i :: 0 <= i < n - 1 ==> IsAlnum(v[i])
  {
    var d := if hex then Run(v, IsHexDigit) else Run(v, IsDigit);
    if d == 0 || d >= |v| || v[d] != ';' || NumberValue(v[..d], hex) > MaxCodePoint then 0
    else d + 1
  }

  /** `digits;` is recognised from its own characters alone. */
  lemma DigitsLocal(v: string, w: string, hex: bool)
    requires DigitsLength(v, hex) > 0 && DigitsLength(v, hex) <= |w|
    requires w[..DigitsLength(v, hex)] == v[..DigitsLength(v, hex)]
    ensures DigitsLength(w, hex) == DigitsLength(v, hex)
  {
    var n := DigitsLength(v, hex);
    assert forall i :: 0 <= i < n ==> v[i] == v[..n][i] == w[..n][i] == w[i];
    if hex {
      RunLocal(v, w, IsHexDigit, n);
    } else {
      RunLocal(v, w, IsDigit, n);
    }
    assert v[..n - 1] == w[..n - 1];
  }

  /** A hexadecimal body starts with `0x` that `strtol` skips. */
  predicate HasHexPrefix(u: string) {
    |u| >= 3 && u[0] == '0' && (u[1] == 'x' || u[1] == 'X') && IsHexDigit(u[2])
  }

  /**
   * Length of the numeric reference `&#...;` when `t` is what follows `&#`, or 0.
   * As with `strtol`, a hexadecimal body may itself start with `0x`.
   */
  function NumericReferenceLength(t: string): (n: nat)
    ensures n > 0 ==> 4 <= n <= |t| + 2 && t[n - 3] == ';'
    ensures forall i :: 0 <= i < n - 3 ==> IsAlnum(t[i])
  {
    if |t| > 0 && (t[0] == 'x' || t[0] == 'X') then
      var u := t[1..];
      if HasHexPrefix(u) then
        var d := DigitsLength(u[2..], true);
        assert forall i :: 0 <= i < d - 1 ==> t[i + 3] == u[2..][i];
        if d > 0 then 5 + d else 0
      else
        var d := DigitsLength(u, true);
        assert forall i :: 0 <= i < d - 1 ==> t[i + 1] == u[i];
        if d > 0 then 3 + d else 0
    else
      var d := DigitsLength(t, false);
      if d > 0 then 2 + d else 0
  }

  /** Two texts that agree on their first `n` characters agree on them after dropping `k`. */
  lemma SamePrefixDrop(a: string, b: string, n: nat, k: nat)
    requires k <= n <= |a| && n <= |b| && a[..n] == b[..n]
    ensures forall i :: 0 <= i < n ==> a[i] == b[i]
    ensures a[k..][..n - k] == b[k..][..n - k]
  {
    assert forall i :: 0 <= i < n ==> a[i] == a[..n][i] && b[i] == b[..n][i];
    assert a[k..][..n - k] == a[..n][k..];
    assert b[k..][..n - k] == b[..n][k..];
  }

  /** A hexadecimal numeric reference is recognised from its own characters alone. */
  lemma HexNumericLocal(a: string, b: string)
    requires |a| > 0 && (a[0] == 'x' || a[0] == 'X') && NumericReferenceLength(a) > 0
    requires NumericReferenceLength(a) - 2 <= |b|
    requires b[..NumericReferenceLength(a) - 2] == a[..NumericReferenceLength(a) - 2]
    ensures NumericReferenceLength(b) == NumericReferenceLength(a)
  {
    var n := NumericReferenceLength(a) - 2;
    SamePrefixDrop(a, b, n, 1);
    var ua := a[1..];
    var ub := b[1..];
    if HasHexPrefix(ua) {
      SamePrefixDrop(ua, ub, n - 1, 2);
      assert HasHexPrefix(ub);
      DigitsLocal(ua[2..], ub[2..], true);
    } else {
      SamePrefixDrop(ua, ub, n - 1, 0);
      assert !HasHexPrefix(ub);
      DigitsLocal(ua, ub, true);
    }
  }

  /** A numeric reference is recognised from its own characters alone. */
  lemma NumericLocal(a: string, b: string)
    requires NumericReferenceLength(a) > 0
    requires NumericReferenceLength(a) - 2 <= |b|
    requires b[..NumericReferenceLength(a) - 2] == a[..NumericReferenceLength(a) - 2]
    ensures NumericReferenceLength(b) == NumericReferenceLength(a)
  {
    var n := NumericReferenceLength(a) - 2;
    SamePrefixDrop(a, b, n, 0);
    if a[0] == 'x' || a[0] == 'X' {
      HexNumericLocal(a, b);
    } else {
      DigitsLocal(a, b, false);
    }
  }

  /** Length of the named reference `&name;` when `t` is what follows `&`, or 0. */
  function NamedReferenceLength(t: string, names: set<string>): (n: nat)
    ensures n > 0 ==> 3 <= n <= |t| + 1 && t[n - 2] == ';'
    ensures forall i :: 0 <= i < n - 2 ==> IsAlnum(t[i])
  {
    var len := Run(t, IsAlnum);
    if len == 0 || len >= |t| || t[len] != ';' || t[..len] !in names then 0
    else len + 2
  }

  /** A named reference is recognised from its own characters alone. */
  lemma NamedLocal(a: string, b: string, names: set<string>)
    requires NamedReferenceLength(a, names) > 0
    requires NamedReferenceLength(a, names) - 1 <= |b|
    requires b[..NamedReferenceLength(a, names) - 1] == a[..NamedReferenceLength(a, names) - 1]
    ensures NamedReferenceLength(b, names) == NamedReferenceLength(a, names)
  {
    var n := NamedReferenceLength(a, names) - 1;
    assert forall i :: 0 <= i < n ==> a[i] == a[..n][i] == b[..n][i] == b[i];
    RunLocal(a, b, IsAlnum, n);
    assert a[..n - 1] == b[..n - 1];
  }

  /** Length of the character reference `s` starts with, or 0 when it does not start with one. */
  function ReferenceLength(s: string, names: set<string>): (n: nat)
    ensures n > 0 ==> 3 <= n <= |s| && s[0] == '&' && s[n - 1] == ';'
    ensures forall i :: 1 <= i < n - 1 ==> IsReferenceChar(s[i])
  {
    if |s| < 2 || s[0] != '&' then 0
    else if s[1] == '#' then
      var n := NumericReferenceLength(s[2..]);
      assert forall i :: 2 <= i < n - 1 ==> s[i] == s[2..][i - 2];
      n
    else
      var n := NamedReferenceLength(s[1..], names);
      assert forall i :: 1 <= i < n - 1 ==> s[i] == s[1..][i - 1];
      n
  }

  /** A reference is recognised from its own characters alone: what follows it does not matter. */
  lemma ReferenceLocal(s: string, t: string, names: set<string>)
    requires ReferenceLength(s, names) > 0
    requires ReferenceLength(s, names) <= |t|
    requires t[..ReferenceLength(s, names)] == s[..ReferenceLength(s, names)]
    ensures ReferenceLength(t, names) == ReferenceLength(s, names)
  {
    var k := ReferenceLength(s, names);
    if s[1] == '#' {
      SamePrefixDrop(s, t, k, 2);
      NumericLocal(s[2..], t[2..]);
    } else {
      SamePrefixDrop(s, t, k, 1);
      NamedLocal(s[1..], t[1..], names);
    }
  }

  /** A named reference to a name in the table is recognised, whatever follows it. */
  lemma NamedReferenceRecognised(name: string, t: string, names: set<string>)
    requires |name| > 0 && forall i :: 0 <= i < |name| ==> IsAlnum(name[i])
    requires name in names
    ensures ReferenceLength("&" + name + ";" + t, names) == |name| + 2
  {
    var s := "&" + name + ";" + t;
    var u := s[1..];
    assert u == name + ";" + t;
    assert u[|name|] == ';';
    RunIs(u, IsAlnum, |name|);
    assert u[..|name|] == name;
  }

  /** The entity that replaces one special character, or the character itself. */
  function Replacement(c: char, doctype: Doctype): string
  {
    if c == '&' then "&amp;"
    else if c == '<' then "&lt;"
    else if c == '>' then "&gt;"
    else if c == '"' then "&quot;"
    else if c == '\'' then (if doctype == Html5 then "&apos;" else "&#039;")
    else [c]
  }

  predicate MarkupFree(s: string) {
    forall i :: 0 <= i < |s| ==> !IsMarkup(s[i])
  }

  lemma MarkupFreeConcat(a: string, b: string)
    requires MarkupFree(a) && MarkupFree(b)
    ensures MarkupFree(a + b)
  {
  }

  /** A recognised reference holds no markup character. */
  lemma ReferenceMarkupFree(s: string, names: set<string>)
    requires ReferenceLength(s, names) > 0
    ensures MarkupFree(s[..ReferenceLength(s, names)])
  {
    var k := ReferenceLength(s, names);
    forall i | 0 <= i < k
      ensures !IsMarkup(s[..k][i])
    {
      assert s[..k][i] == s[i];
      if 0 < i < k - 1 {
        assert IsReferenceChar(s[i]);
      }
    }
  }

  /** `htmlspecialchars($s, ENT_QUOTES | doctype, 'UTF-8', doubleEncode)`. */
  function Escape(s: string, flags: Flags): (r: string)
    ensures MarkupFree(r)
    ensures |r| >= |s|
    decreases |s|
  {
    if s == [] then []
    else
      var k := if flags.doubleEncode then 0 else ReferenceLength(s, flags.entityNames);
      if k > 0 then
        var rest := Escape(s[k..], flags);
        ReferenceMarkupFree(s, flags.entityNames);
        MarkupFreeConcat(s[..k], rest);
        s[..k] + rest
      else
        var rest := Escape(s[1..], flags);
        MarkupFreeConcat(Replacement(s[0], flags.doctype), rest);
        Replacement(s[0], flags.doctype) + rest
  }

  /**
   * Text the attribute escaper leaves alone: every `&` starts a recognised reference,
   * which is skipped whole, and no other special character occurs.
   */
  predicate Clean(s: string, names: set<string>)
    decreases |s|
  {
    if s == [] then true
    else
      var k := ReferenceLength(s, names);
      if k > 0 then Clean(s[k..], names) else !IsSpecial(s[0]) && Clean(s[1..], names)
  }

  /** Without double encoding, a reference at the front is copied whole. */
  lemma EscapeCopiesReference(s: string, flags: Flags)
    requires !flags.doubleEncode && ReferenceLength(s, flags.entityNames) > 0
    ensures var k := ReferenceLength(s, flags.entityNames);
            Escape(s, flags) == s[..k] + Escape(s[k..], flags)
  {
  }

  /** Otherwise the first character is replaced by its entity, or kept. */
  lemma EscapeReplacesFirst(s: string, flags: Flags)
    requires s != [] && (flags.doubleEncode || ReferenceLength(s, flags.entityNames) == 0)
    ensures Escape(s, flags) == Replacement(s[0], flags.doctype) + Escape(s[1..], flags)
  {
  }

  lemma Reassemble(s: string, k: nat)
    requires k <= |s|
    ensures s[..k] + s[k..] == s
  {
  }

  /** Escaping fixes text that starts with a reference when it fixes what follows the reference. */
  lemma EscapeFixesAfterReference(s: string, flags: Flags)
    requires !flags.doubleEncode && ReferenceLength(s, flags.entityNames) > 0
    requires var k := ReferenceLength(s, flags.entityNames); Escape(s[k..], flags) == s[k..]
    ensures Escape(s, flags) == s
  {
    EscapeCopiesReference(s, flags);
    Reassemble(s, ReferenceLength(s, flags.entityNames));
  }

  /** Escaping fixes text that starts with an ordinary character when it fixes the rest. */
  lemma EscapeFixesAfterPlainChar(s: string, flags: Flags)
    requires s != [] && !flags.doubleEncode && ReferenceLength(s, flags.entityNames) == 0 && !IsSpecial(s[0])
    requires Escape(s[1..], flags) == s[1..]
    ensures Escape(s, flags) == s
  {
    EscapeReplacesFirst(s, flags);
    Reassemble(s, 1);
    assert s[..1] == [s[0]];
  }

  /** Escaping without double encoding leaves clean text unchanged. */
  lemma {:induction false} EscapeFixesClean(s: string, flags: Flags)
    requires !flags.doubleEncode
    requires Clean(s, flags.entityNames)
    ensures Escape(s, flags) == s
    decreases |s|
  {
    if s != [] {
      var k := ReferenceLength(s, flags.entityNames);
      if k > 0 {
        EscapeFixesClean(s[k..], flags);
        EscapeFixesAfterReference(s, flags);
      } else {
        EscapeFixesClean(s[1..], flags);
        EscapeFixesAfterPlainChar(s, flags);
      }
    }
  }

  /** Putting a recognised reference in front of clean text keeps it clean. */
  lemma CleanAfterReference(piece: string, rest: string, names: set<string>)
    requires |piece| > 0 && ReferenceLength(piece, names) == |piece|
    requires Clean(rest, names)
    ensures Clean(piece + rest, names)
  {
    var k := |piece|;
    var s := piece + rest;
    assert s[..k] == piece[..k];
    ReferenceLocal(piece, s, names);
    assert s[k..] == rest;
  }

  /** A reference copied whole keeps clean text clean. */
  lemma CleanAfterCopiedReference(s: string, rest: string, names: set<string>)
    requires ReferenceLength(s, names) > 0
    requires Clean(rest, names)
    ensures Clean(s[..ReferenceLength(s, names)] + rest, names)
  {
    var k := ReferenceLength(s, names);
    assert ReferenceLength(s[..k], names) == k by {
      assert s[..k][..k] == s[..k];
      ReferenceLocal(s, s[..k], names);
    }
    CleanAfterReference(s[..k], rest, names);
  }

  /** The entity of a special character, or the character itself, keeps clean text clean. */
  lemma CleanAfterReplacement(c: char, rest: string, names: set<string>)
    requires BasicEntityNames <= names
    requires Clean(rest, names)
    ensures Clean(Replacement(c, Html5) + rest, names)
  {
    if IsSpecial(c) {
      var name := if c == '&' then "amp" else if c == '<' then "lt" else if c == '>' then "gt"
        else if c == '"' then "quot" else "apos";
      var piece := "&" + name + ";";
      assert Replacement(c, Html5) == piece;
      NamedReferenceRecognised(name, [], names);
      assert piece + [] == piece;
      CleanAfterReference(piece, rest, names);
    } else {
      var s := [c] + rest;
      assert s[1..] == rest;
      assert ReferenceLength(s, names) == 0;
    }
  }

  /** The attribute escaper always produces clean text, given that its own five entities are in the table. */
  lemma {:induction false} EscapeIsClean(s: string, names: set<string>)
    requires BasicEntityNames <= names
    ensures Clean(Escape(s, AttributeFlags(names)), names)
    decreases |s|
  {
    if s != [] {
      var k := ReferenceLength(s, names);
      if k > 0 {
        EscapeIsClean(s[k..], names);
        CleanAfterCopiedReference(s, Escape(s[k..], AttributeFlags(names)), names);
      } else {
        EscapeIsClean(s[1..], names);
        CleanAfterReplacement(s[0], Escape(s[1..], AttributeFlags(names)), names);
      }
    }
  }

  /** Escaping a props string a second time changes nothing: no double encoding. */
  lemma EscapeIdempotent(s: string, names: set<string>)
    requires BasicEntityNames <= names
    ensures Escape(Escape(s, AttributeFlags(names)), AttributeFlags(names)) == Escape(s, AttributeFlags(names))
  {
    EscapeIsClean(s, names);
    EscapeFixesClean(Escape(s, AttributeFlags(names)), AttributeFlags(names));
  }

  /** No `&` in `s` starts a reference the escaper would recognise. */
  predicate NoReferences(s: string, names: set<string>)
    decreases |s|
  {
    s == [] || (ReferenceLength(s, names) == 0 && NoReferences(s[1..], names))
  }

  /** Decodes the entities the escaper writes (both spellings of the apostrophe); the partner of `Escape`. */
  function Unescape(s: string): string
    decreases |s|
  {
    if s == [] then []
    else if s[0] != '&' then [s[0]] + Unescape(s[1..])
    else if StartsWith(s, "&amp;") then "&" + Unescape(s[5..])
    else if StartsWith(s, "&lt;") then "<" + Unescape(s[4..])
    else if StartsWith(s, "&gt;") then ">" + Unescape(s[4..])
    else if StartsWith(s, "&quot;") then "\"" + Unescape(s[6..])
    else if StartsWith(s, "&apos;") then "'" + Unescape(s[6..])
    else if StartsWith(s, "&#039;") then "'" + Unescape(s[6..])
    else [s[0]] + Unescape(s[1..])
  }

  /** Decoding the replacement of one character gives that character back. */
  lemma UnescapeReplacement(c: char, doctype: Doctype, t: string)
    ensures Unescape(Replacement(c, doctype) + t) == [c] + Unescape(t)
  {
    var e := Replacement(c, doctype);
    var s := e + t;
    StartsWithConcat(e, t);
    if !IsSpecial(c) {
      assert s[0] == c;
      assert s[1..] == t;
    } else if c == '&' {
    } else if c == '<' {
      DiffersAt(s, "&amp;", 1);
    } else if c == '>' {
      DiffersAt(s, "&amp;", 1);
      DiffersAt(s, "&lt;", 1);
    } else if c == '"' {
      DiffersAt(s, "&amp;", 1);
      DiffersAt(s, "&lt;", 1);
      DiffersAt(s, "&gt;", 1);
    } else if doctype == Html5 {
      DiffersAt(s, "&amp;", 2);
      DiffersAt(s, "&lt;", 1);
      DiffersAt(s, "&gt;", 1);
      DiffersAt(s, "&quot;", 1);
    } else {
      DiffersAt(s, "&amp;", 1);
      DiffersAt(s, "&lt;", 1);
      DiffersAt(s, "&gt;", 1);
      DiffersAt(s, "&quot;", 1);
      DiffersAt(s, "&apos;", 1);
    }
  }

  /**
   * Decoding undoes escaping whenever no reference had to be preserved: always with
   * double encoding, and with it off when the input holds no recognised reference.
   */
  lemma {:induction false} UnescapeEscape(s: string, flags: Flags)
    ensures flags.doubleEncode || NoReferences(s, flags.entityNames) ==> Unescape(Escape(s, flags)) == s
    decreases |s|
  {
    if s != [] && (flags.doubleEncode || NoReferences(s, flags.entityNames)) {
      UnescapeEscape(s[1..], flags);
      UnescapeReplacement(s[0], flags.doctype, Escape(s[1..], flags));
      assert [s[0]] + s[1..] == s;
    }
  }

  /** The characters of the XSS test vector `&<>"'` all become entities. */
  lemma EscapeOfAllSpecials(names: set<string>)
    ensures Escape("&<>\"'", AttributeFlags(names)) == "&amp;&lt;&gt;&quot;&apos;"
  {
    var f := AttributeFlags(names);
    var s := "&<>\"'";
    assert Run(s[1..], IsAlnum) == 0;
    assert ReferenceLength(s, names) == 0;
    assert s[1..] == "<>\"'";
    assert s[1..][1..] == ">\"'";
    assert s[1..][1..][1..] == "\"'";
    assert s[1..][1..][1..][1..] == "'";
    assert "'"[1..] == [];
  }
}
