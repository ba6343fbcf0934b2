/**
 * `ReactRenderer::render`: validates the component name, picks the mount point's id,
 * encodes and escapes the props, and hands the three to the Twig template. The static
 * counter is threaded through as a number; `json_encode` and `uniqid` are parameters;
 * the template's output is represented by the variables it receives.
 */
module ReactRenderer {
  import opened Wrappers
  import opened Strings
  import HtmlEscape

  const MaxNameLength: nat := 255

  /** A character of the class `[a-zA-Z0-9_-]`. */
  predicate IsNameChar(c: char) {
    HtmlEscape.IsAlnum(c) || c == '_' || c == '-'
  }

  predicate AllNameChars(s: string) {
    forall i :: 0 <= i < |s| ==> IsNameChar(s[i])
  }

  /**
   * `preg_match('/^[a-zA-Z0-9_-]+$/', $name) === 1` as PCRE evaluates it: without the
   * `D` modifier, `$` also matches just before a final line feed.
   */
  predicate MatchesNamePatternAsWritten(name: string) {
    (|name| > 0 && AllNameChars(name))
    || (|name| >= 2 && name[|name| - 1] == '\n' && AllNameChars(name[..|name| - 1]))
  }

  /** `isValidComponentName` as written: the pattern above and at most 255 bytes. */
  predicate IsValidComponentNameAsWritten(name: string) {
    MatchesNamePatternAsWritten(name) && |name| <= MaxNameLength
  }

  /** The intended rule: one to 255 characters, each a letter, digit, `_` or `-`. */
  predicate IsValidComponentName(name: string) {
    0 < |name| <= MaxNameLength && AllNameChars(name)
  }

  /** The check as written lets a name with a trailing line feed through. */
  lemma AsWrittenAcceptsTrailingNewline()
    ensures IsValidComponentNameAsWritten("Abc\n")
    ensures !IsValidComponentName("Abc\n")
  {
    assert "Abc\n"[..3] == "Abc";
    assert !IsNameChar("Abc\n"[3]);
  }

  /** That trailing line feed is the only difference between the check as written and the intended rule. */
  lemma AsWrittenDiffersOnlyByNewline(name: string)
    ensures IsValidComponentNameAsWritten(name)
        <==> IsValidComponentName(name)
             || (|name| <= MaxNameLength && |name| >= 2 && name[|name| - 1] == '\n' && IsValidComponentName(name[..|name| - 1]))
  {
  }

  /** A valid name holds no character `htmlspecialchars` would touch, so it is safe in any attribute. */
  lemma ValidNameNeedsNoEscaping(name: string, flags: HtmlEscape.Flags)
    requires IsValidComponentName(name)
    ensures HtmlEscape.Escape(name, flags) == name
  {
    NameCharsEscapeToThemselves(name, flags);
  }

  lemma {:induction false} NameCharsEscapeToThemselves(s: string, flags: HtmlEscape.Flags)
    requires AllNameChars(s)
    ensures HtmlEscape.Escape(s, flags) == s
    decreases |s|
  {
    if s != [] {
      assert !HtmlEscape.IsSpecial(s[0]);
      assert HtmlEscape.ReferenceLength(s, flags.entityNames) == 0;
      assert AllNameChars(s[1..]) by {
        assert forall i :: 0 <= i < |s| - 1 ==> s[1..][i] == s[i + 1];
      }
      NameCharsEscapeToThemselves(s[1..], flags);
      assert [s[0]] + s[1..] == s;
    }
  }

  const IdPrefix: string := "react-component-"

  /** `'react-component-' . ++counter . '-' . uniqid()`, given the counter before the increment. */
  function GeneratedId(counter: nat, uniq: string): (id: string)
    ensures StartsWith(id, IdPrefix)
    ensures EndsWith(id, "-" + uniq)
  {
    var id := IdPrefix + NatToString(counter + 1) + "-" + uniq;
    assert id[..|IdPrefix|] == IdPrefix;
    assert id[|id| - |"-" + uniq|..] == "-" + uniq;
    id
  }

  /** Ids generated from different counter values differ, whatever `uniqid()` returned. */
  lemma GeneratedIdsDiffer(c1: nat, u1: string, c2: nat, u2: string)
    requires c1 != c2
    ensures GeneratedId(c1, u1) != GeneratedId(c2, u2)
  {
    var a := NatToString(c1 + 1);
    var b := NatToString(c2 + 1);
    var x := IdPrefix + a + "-" + u1;
    var y := IdPrefix + b + "-" + u2;
    var p := |IdPrefix|;
    if |a| < |b| {
      assert x[p + |a|] == '-';
      assert y[p + |a|] == b[|a|];
      assert x[p + |a|] != y[p + |a|];
    } else if |b| < |a| {
      assert y[p + |b|] == '-';
      assert x[p + |b|] == a[|b|];
      assert x[p + |b|] != y[p + |b|];
    } else {
      assert a != b by {
        if a == b {
          NatToStringInjective(c1 + 1, c2 + 1);
        }
      }
      assert x[p..p + |a|] == a;
      assert y[p..p + |b|] == b;
    }
  }

  /** What the template receives: `component_id`, `component_name` and the escaped `props`. */
  datatype MountPoint = MountPoint(id: string, name: string, props: string)

  /** The log records `render` writes (timings and memory figures are not modelled). */
  datatype LogRecord = EncodingError(component: string) | Rendered(component: string, propsCount: nat)

  datatype Rendering = Rendering(mount: MountPoint, log: seq<LogRecord>)

  function InvalidNameMessage(name: string): string
  {
    "Invalid component name: " + name + ". Must contain only alphanumeric characters, hyphens, and underscores."
  }

  /** The props attribute when encoding failed. */
  const FallbackProps: string := "{}"

  /**
   * The props attribute and the errors logged on the way: the escaped JSON, or `{}`
   * and one error record when encoding failed.
   */
  function EscapedProps(name: string, json: Option<string>, entityNames: set<string>): (res: (string, seq<LogRecord>))
    ensures HtmlEscape.MarkupFree(res.0)
    ensures json.None? ==> res == (FallbackProps, [EncodingError(name)])
    ensures json.Some? ==> res.1 == []
    ensures json.Some? && HtmlEscape.NoReferences(json.value, entityNames) ==> HtmlEscape.Unescape(res.0) == json.value
  {
    match json
    case None => (FallbackProps, [EncodingError(name)])
    case Some(j) =>
      HtmlEscape.UnescapeEscape(j, HtmlEscape.AttributeFlags(entityNames));
      (HtmlEscape.Escape(j, HtmlEscape.AttributeFlags(entityNames)), [])
  }

  /**
   * `render($name, $props, $id)` with the counter's value before the call; returns the
   * rendering or the `InvalidArgumentException` message, and the counter afterwards.
   * `encode` is `json_encode` (`None` when it fails); `entityNames` is the HTML5 table.
   */
  function Render<P>(counter: nat, name: string, props: seq<P>, id: Option<string>, uniq: string,
                     encode: seq<P> -> Option<string>, entityNames: set<string>): (res: (Result<Rendering, string>, nat))
    ensures !IsValidComponentName(name) ==> res == (Failure(InvalidNameMessage(name)), counter)
    ensures IsValidComponentName(name) ==>
              res.0.Success? &&
              var r := res.0.value;
              r.mount.name == name
              && (id.Some? ==> r.mount.id == id.value && res.1 == counter)
              && (id.None? ==> r.mount.id == GeneratedId(counter, uniq) && res.1 == counter + 1)
              && HtmlEscape.MarkupFree(r.mount.props)
              && (encode(props).None? ==> r.mount.props == FallbackProps && r.log == [EncodingError(name), Rendered(name, |props|)])
              && (encode(props).Some?
                  ==> r.log == [Rendered(name, |props|)]
                      && (HtmlEscape.NoReferences(encode(props).value, entityNames)
                          ==> HtmlEscape.Unescape(r.mount.props) == encode(props).value))
  {
    if !IsValidComponentName(name) then (Failure(InvalidNameMessage(name)), counter)
    else
      var mounted := Mount(counter, name, props, id, uniq, encode, entityNames);
      (Success(mounted.0), mounted.1)
  }

  /** The part of `render` after the name check: the mount point, its log and the new counter. */
  function Mount<P>(counter: nat, name: string, props: seq<P>, id: Option<string>, uniq: string,
                    encode: seq<P> -> Option<string>, entityNames: set<string>): (res: (Rendering, nat))
    ensures res.0.mount.name == name
    ensures id.Some? ==> res.0.mount.id == id.value && res.1 == counter
    ensures id.None? ==> res.0.mount.id == GeneratedId(counter, uniq) && res.1 == counter + 1
    ensures HtmlEscape.MarkupFree(res.0.mount.props)
    ensures encode(props).None?
            ==> res.0.mount.props == FallbackProps && res.0.log == [EncodingError(name), Rendered(name, |props|)]
    ensures encode(props).Some?
            ==> res.0.log == [Rendered(name, |props|)]
                && (HtmlEscape.NoReferences(encode(props).value, entityNames)
                    ==> HtmlEscape.Unescape(res.0.mount.props) == encode(props).value)
  {
    var (mountId, counter') :=
      if id.Some? then (id.value, counter) else (GeneratedId(counter, uniq), counter + 1);
    var (escaped, errors) := EscapedProps(name, encode(props), entityNames);
    (Rendering(MountPoint(mountId, name, escaped), errors + [Rendered(name, |props|)]), counter')
  }

  /** `Render` applies the intended rule, so the name the check as written lets through fails. */
  lemma RenderRejectsTrailingNewline<P>(counter: nat, props: seq<P>, id: Option<string>, uniq: string,
                                        encode: seq<P> -> Option<string>, entityNames: set<string>)
    ensures IsValidComponentNameAsWritten("Abc\n")
    ensures Render(counter, "Abc\n", props, id, uniq, encode, entityNames)
            == (Failure(InvalidNameMessage("Abc\n")), counter)
  {
    AsWrittenAcceptsTrailingNewline();
  }

  /**
   * Two renders in a row that both generate their id get different ids: the counter
   * only grows, and it is part of the id.
   */
  lemma SuccessiveIdsDiffer<P>(counter: nat, n1: string, p1: seq<P>, u1: string, n2: string, p2: seq<P>, u2: string,
                               encode: seq<P> -> Option<string>, entityNames: set<string>)
    requires IsValidComponentName(n1) && IsValidComponentName(n2)
    ensures var (r1, c1) := Render(counter, n1, p1, None, u1, encode, entityNames);
            var (r2, _) := Render(c1, n2, p2, None, u2, encode, entityNames);
            r1.Success? && r2.Success? && r1.value.mount.id != r2.value.mount.id
  {
    GeneratedIdsDiffer(counter, u1, counter + 1, u2);
  }

  /** Props the escaper leaves alone reach the template unchanged; empty props arrive as `[]`. */
  lemma EmptyPropsRenderAsEmptyList<P>(counter: nat, name: string, id: Option<string>, uniq: string,
                                       encode: seq<P> -> Option<string>, entityNames: set<string>)
    requires IsValidComponentName(name)
    requires encode([]) == Some("[]")
    ensures var r := Render(counter, name, [], id, uniq, encode, entityNames).0;
            r.Success? && r.value.mount.props == "[]" && r.value.log == [Rendered(name, 0)]
  {
    var f := HtmlEscape.AttributeFlags(entityNames);
    assert HtmlEscape.Clean("[]", entityNames) by {
      assert "[]"[1..] == "]";
      assert "]"[1..] == [];
    }
    HtmlEscape.EscapeFixesClean("[]", f);
  }
}
