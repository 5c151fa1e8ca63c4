/**
 * Escaping of page content for the XML tab: the five characters that XML 1.0
 * (section 2.4 and section 4.6) reserves become the predefined entity references.
 */
module XmlEscape {
  import opened JsText

  /** The five predefined entity references. */
  const AmpRef: string := "&amp;"
  const LtRef: string := "&lt;"
  const GtRef: string := "&gt;"
  const QuotRef: string := "&quot;"
  const AposRef: string := "&apos;"

  /**
   * The escaping as the results display writes it: five global replaces in a
   * chain, `&` first so that the ampersands the later steps insert are left alone.
   */
  function Escape(s: string): string {
    var amp := ReplaceChar(s, '&', AmpRef);
    var lt := ReplaceChar(amp, '<', LtRef);
    var gt := ReplaceChar(lt, '>', GtRef);
    var quot := ReplaceChar(gt, '"', QuotRef);
    ReplaceChar(quot, '\'', AposRef)
  }

  lemma ReferencesHoldNoSpecials()
    ensures '<' !in LtRef && '<' !in GtRef && '<' !in QuotRef && '<' !in AposRef
    ensures '>' !in GtRef && '>' !in QuotRef && '>' !in AposRef
    ensures '"' !in QuotRef && '"' !in AposRef
    ensures '\'' !in AposRef
  {
  }

  /** Escaped content holds none of `<`, `>`, `"` and `'`. */
  lemma EscapeLeavesNoSpecials(s: string)
    ensures '<' !in Escape(s)
    ensures '>' !in Escape(s)
    ensures '"' !in Escape(s)
    ensures '\'' !in Escape(s)
  {
    var amp := ReplaceChar(s, '&', AmpRef);
    var lt := ReplaceChar(amp, '<', LtRef);
    var gt := ReplaceChar(lt, '>', GtRef);
    var quot := ReplaceChar(gt, '"', QuotRef);
    ReferencesHoldNoSpecials();
    ReplaceCharAbsent(lt, '>', GtRef, '<');
    ReplaceCharAbsent(gt, '"', QuotRef, '<');
    ReplaceCharAbsent(gt, '"', QuotRef, '>');
    ReplaceCharAbsent(quot, '\'', AposRef, '<');
    ReplaceCharAbsent(quot, '\'', AposRef, '>');
    ReplaceCharAbsent(quot, '\'', AposRef, '"');
  }

  /** The reference for one character: its entity when it is one of the five, else itself. */
  function EscapeChar(c: char): string {
    match c
    case '&' => AmpRef
    case '<' => LtRef
    case '>' => GtRef
    case '"' => QuotRef
    case '\'' => AposRef
    case _ => [c]
  }

  /** Escaping character by character, in one pass: the independent definition Escape is measured against. */
  function EscapeEach(s: string): string {
    if s == [] then "" else EscapeChar(s[0]) + EscapeEach(s[1..])
  }

  lemma EscapeAppend(a: string, b: string)
    ensures Escape(a + b) == Escape(a) + Escape(b)
  {
    ReplaceCharAppend(a, b, '&', "&amp;");
    var a1, b1 := ReplaceChar(a, '&', "&amp;"), ReplaceChar(b, '&', "&amp;");
    ReplaceCharAppend(a1, b1, '<', "&lt;");
    var a2, b2 := ReplaceChar(a1, '<', "&lt;"), ReplaceChar(b1, '<', "&lt;");
    ReplaceCharAppend(a2, b2, '>', "&gt;");
    var a3, b3 := ReplaceChar(a2, '>', "&gt;"), ReplaceChar(b2, '>', "&gt;");
    ReplaceCharAppend(a3, b3, '"', "&quot;");
    var a4, b4 := ReplaceChar(a3, '"', "&quot;"), ReplaceChar(b3, '"', "&quot;");
    ReplaceCharAppend(a4, b4, '\'', "&apos;");
  }

  lemma ReplaceSingle(c: char, rep: string)
    ensures ReplaceChar([c], c, rep) == rep
  {
    assert ReplaceChar([c], c, rep) == rep + ReplaceChar([], c, rep);
  }

  /** The stages after the first leave a result alone that holds none of their characters. */
  lemma LaterStagesKeep(x: string, e: string)
    requires ReplaceChar(x, '&', AmpRef) == e
    requires '<' !in e && '>' !in e && '"' !in e && '\'' !in e
    ensures Escape(x) == e
  {
  }

  /** Escaping a single character yields its reference. */
  lemma EscapeSingle(c: char)
    ensures Escape([c]) == EscapeChar(c)
  {
    if c == '&' {
      ReplaceSingle('&', AmpRef);
      LaterStagesKeep([c], AmpRef);
    } else if c == '<' {
      EscapeLt(c);
    } else if c == '>' {
      EscapeGt(c);
    } else if c == '"' {
      EscapeQuot(c);
    } else if c == '\'' {
      EscapeApos(c);
    } else {
      LaterStagesKeep([c], [c]);
    }
  }

  lemma EscapeLt(c: char)
    requires c == '<'
    ensures Escape([c]) == LtRef
  {
    var amp := ReplaceChar([c], '&', AmpRef);
    assert amp == [c];
    ReplaceSingle('<', LtRef);
    assert ReplaceChar(amp, '<', LtRef) == LtRef;
    assert '>' !in LtRef && '"' !in LtRef && '\'' !in LtRef;
  }

  lemma EscapeGt(c: char)
    requires c == '>'
    ensures Escape([c]) == GtRef
  {
    var amp := ReplaceChar([c], '&', AmpRef);
    assert amp == [c];
    var lt := ReplaceChar(amp, '<', LtRef);
    assert lt == [c];
    ReplaceSingle('>', GtRef);
    assert ReplaceChar(lt, '>', GtRef) == GtRef;
    assert '"' !in GtRef && '\'' !in GtRef;
  }

  lemma EscapeQuot(c: char)
    requires c == '"'
    ensures Escape([c]) == QuotRef
  {
    var amp := ReplaceChar([c], '&', AmpRef);
    assert amp == [c];
    var lt := ReplaceChar(amp, '<', LtRef);
    assert lt == [c];
    var gt := ReplaceChar(lt, '>', GtRef);
    assert gt == [c];
    ReplaceSingle('"', QuotRef);
    assert ReplaceChar(gt, '"', QuotRef) == QuotRef;
    assert '\'' !in QuotRef;
  }

  lemma EscapeApos(c: char)
    requires c == '\''
    ensures Escape([c]) == AposRef
  {
    var amp := ReplaceChar([c], '&', AmpRef);
    assert amp == [c];
    var lt := ReplaceChar(amp, '<', LtRef);
    assert lt == [c];
    var gt := ReplaceChar(lt, '>', GtRef);
    assert gt == [c];
    var quot := ReplaceChar(gt, '"', QuotRef);
    assert quot == [c];
    ReplaceSingle('\'', AposRef);
  }

  /**
   * The chain of replaces equals the one-pass escaping: because `&` goes
   * first, no character is escaped twice.
   */
  lemma {:induction false} EscapeIsPerCharacter(s: string)
    ensures Escape(s) == EscapeEach(s)
  {
    if s == [] {
    } else {
      assert s == [s[0]] + s[1..];
      EscapeAppend([s[0]], s[1..]);
      EscapeSingle(s[0]);
      EscapeIsPerCharacter(s[1..]);
    }
  }

  /** `e` holds one of the five predefined entity references at position `i`. */
  predicate EntityAt(e: string, i: nat)
    requires i <= |e|
  {
    var rest := e[i..];
    StartsWith(rest, AmpRef) || StartsWith(rest, LtRef) || StartsWith(rest, GtRef)
    || StartsWith(rest, QuotRef) || StartsWith(rest, AposRef)
  }

  /** Every `&` in `e` starts an entity reference. */
  predicate AmpersandsEscaped(e: string) {
    forall i :: 0 <= i < |e| && e[i] == '&' ==> EntityAt(e, i)
  }

  lemma EntityAtAppend(a: string, b: string, i: nat)
    requires i <= |a| && EntityAt(a, i)
    ensures EntityAt(a + b, i)
  {
    assert (a + b)[i..] == a[i..] + b;
  }

  lemma EntityAtPrepend(a: string, b: string, i: nat)
    requires i <= |b| && EntityAt(b, i)
    ensures EntityAt(a + b, |a| + i)
  {
    assert (a + b)[|a| + i..] == b[i..];
  }

  /** The property survives concatenation, since an entity is read forwards from its `&`. */
  lemma AmpersandsEscapedAppend(a: string, b: string)
    requires AmpersandsEscaped(a) && AmpersandsEscaped(b)
    ensures AmpersandsEscaped(a + b)
  {
    forall i | 0 <= i < |a + b| && (a + b)[i] == '&'
      ensures EntityAt(a + b, i)
    {
      if i < |a| {
        EntityAtAppend(a, b, i);
      } else {
        EntityAtPrepend(a, b, i - |a|);
      }
    }
  }

  /** The property survives dropping a prefix. */
  lemma AmpersandsEscapedSuffix(s: string, k: nat)
    requires k <= |s| && AmpersandsEscaped(s)
    ensures AmpersandsEscaped(s[k..])
  {
    forall i | 0 <= i < |s| - k && s[k..][i] == '&'
      ensures EntityAt(s[k..], i)
    {
      assert s[k..][i..] == s[k + i..];
      assert EntityAt(s, k + i);
    }
  }

  lemma EntityAtCut(s: string, k: nat, j: nat)
    requires k < j <= |s| && EntityAt(s, k)
    requires j == |s| || s[j] == '\n'
    ensures EntityAt(s[..j], k)
  {
    var rest, cut := s[k..], s[..j][k..];
    assert cut == rest[..j - k];
    if StartsWith(rest, AmpRef) {
      assert |AmpRef| <= j - k by { if j < |s| && j - k < |AmpRef| { assert false; } }
      assert StartsWith(cut, AmpRef);
    } else if StartsWith(rest, LtRef) {
      assert |LtRef| <= j - k by { if j < |s| && j - k < |LtRef| { assert false; } }
      assert StartsWith(cut, LtRef);
    } else if StartsWith(rest, GtRef) {
      assert |GtRef| <= j - k by { if j < |s| && j - k < |GtRef| { assert false; } }
      assert StartsWith(cut, GtRef);
    } else if StartsWith(rest, QuotRef) {
      assert |QuotRef| <= j - k by { if j < |s| && j - k < |QuotRef| { assert false; } }
      assert StartsWith(cut, QuotRef);
    } else {
      assert |AposRef| <= j - k by { if j < |s| && j - k < |AposRef| { assert false; } }
      assert StartsWith(cut, AposRef);
    }
  }

  /** Cutting at a line break keeps the property: no entity spans a line break. */
  lemma AmpersandsEscapedCut(s: string, j: nat)
    requires j <= |s| && AmpersandsEscaped(s)
    requires j == |s| || s[j] == '\n'
    ensures AmpersandsEscaped(s[..j])
  {
    forall k | 0 <= k < j && s[..j][k] == '&'
      ensures EntityAt(s[..j], k)
    {
      EntityAtCut(s, k, j);
    }
  }

  /** Splitting into lines keeps the property in every line. */
  lemma {:induction false} SplitAmpersandsEscaped(s: string)
    requires AmpersandsEscaped(s)
    ensures forall i :: 0 <= i < |Split(s, '\n')| ==> AmpersandsEscaped(Split(s, '\n')[i])
  {
    if s != [] {
      var t := s[1..];
      var rest := Split(t, '\n');
      AmpersandsEscapedSuffix(s, 1);
      SplitAmpersandsEscaped(t);
      if s[0] != '\n' {
        var head := [s[0]] + rest[0];
        if |rest| == 1 {
          assert head == s;
        } else {
          assert t == rest[0] + "\n" + Join(rest[1..], "\n");
          assert head == s[..|head|] && s[|head|] == '\n';
          AmpersandsEscapedCut(s, |head|);
        }
      }
    }
  }

  /** Text whose one `&` is its first character, beginning an entity reference. */
  lemma LeadingEntityOnly(e: string)
    requires |e| > 0 && EntityAt(e, 0)
    requires forall i :: 1 <= i < |e| ==> e[i] != '&'
    ensures AmpersandsEscaped(e)
  {
  }

  lemma ReferenceEscaped(e: string)
    requires e in {AmpRef, LtRef, GtRef, QuotRef, AposRef}
    ensures AmpersandsEscaped(e)
  {
    assert e[0..] == e;
    assert StartsWith(e, e);
    LeadingEntityOnly(e);
  }

  /** The only `&` a single character's reference holds is its first character. */
  lemma EscapeCharAmpersands(c: char)
    ensures AmpersandsEscaped(EscapeChar(c))
  {
    if c == '&' || c == '<' || c == '>' || c == '"' || c == '\'' {
      ReferenceEscaped(EscapeChar(c));
    }
  }

  lemma {:induction false} EscapeEachAmpersands(s: string)
    ensures AmpersandsEscaped(EscapeEach(s))
  {
    if s != [] {
      var head := EscapeChar(s[0]);
      EscapeCharAmpersands(s[0]);
      EscapeEachAmpersands(s[1..]);
      AmpersandsEscapedAppend(head, EscapeEach(s[1..]));
    }
  }

  /** Every `&` left in escaped content begins `&amp;`, `&lt;`, `&gt;`, `&quot;` or `&apos;`. */
  lemma EscapedAmpersandsBeginEntities(s: string)
    ensures AmpersandsEscaped(Escape(s))
  {
    EscapeIsPerCharacter(s);
    EscapeEachAmpersands(s);
  }

  /** Reads the five entity references back as the characters they stand for. */
  function Unescape(e: string): string
    decreases |e|
  {
    if e == [] then ""
    else if e[0] != '&' then [e[0]] + Unescape(e[1..])
    else if StartsWith(e, AmpRef) then "&" + Unescape(e[|AmpRef|..])
    else if StartsWith(e, LtRef) then "<" + Unescape(e[|LtRef|..])
    else if StartsWith(e, GtRef) then ">" + Unescape(e[|GtRef|..])
    else if StartsWith(e, QuotRef) then "\"" + Unescape(e[|QuotRef|..])
    else if StartsWith(e, AposRef) then "'" + Unescape(e[|AposRef|..])
    else "&" + Unescape(e[1..])
  }

  lemma UnescapeAmp(rest: string)
    ensures Unescape(AmpRef + rest) == "&" + Unescape(rest)
  {
    var e := AmpRef + rest;
    assert e[..|AmpRef|] == AmpRef && e[|AmpRef|..] == rest;
  }

  lemma UnescapeLt(rest: string)
    ensures Unescape(LtRef + rest) == "<" + Unescape(rest)
  {
    var e := LtRef + rest;
    assert e[..|LtRef|] == LtRef && e[|LtRef|..] == rest;
    assert e[1] == 'l';
    assert !StartsWith(e, AmpRef);
  }

  lemma UnescapeGt(rest: string)
    ensures Unescape(GtRef + rest) == ">" + Unescape(rest)
  {
    var e := GtRef + rest;
    assert e[..|GtRef|] == GtRef && e[|GtRef|..] == rest;
    assert e[1] == 'g';
    assert !StartsWith(e, AmpRef) && !StartsWith(e, LtRef);
  }

  lemma UnescapeQuot(rest: string)
    ensures Unescape(QuotRef + rest) == "\"" + Unescape(rest)
  {
    var e := QuotRef + rest;
    assert e[..|QuotRef|] == QuotRef && e[|QuotRef|..] == rest;
    assert e[1] == 'q';
    assert !StartsWith(e, AmpRef) && !StartsWith(e, LtRef) && !StartsWith(e, GtRef);
  }

  lemma UnescapeApos(rest: string)
    ensures Unescape(AposRef + rest) == "'" + Unescape(rest)
  {
    var e := AposRef + rest;
    assert e[..|AposRef|] == AposRef && e[|AposRef|..] == rest;
    assert e[1] == 'a' && e[2] == 'p';
    assert !StartsWith(e, AmpRef) && !StartsWith(e, LtRef) && !StartsWith(e, GtRef);
    assert !StartsWith(e, QuotRef);
  }

  lemma UnescapeHead(c: char, rest: string)
    ensures Unescape(EscapeChar(c) + rest) == [c] + Unescape(rest)
  {
    match c
    case '&' => UnescapeAmp(rest);
    case '<' => UnescapeLt(rest);
    case '>' => UnescapeGt(rest);
    case '"' => UnescapeQuot(rest);
    case '\'' => UnescapeApos(rest);
    case _ =>
      var e := [c] + rest;
      assert e[0] == c && e[1..] == rest;
  }

  lemma {:induction false} UnescapeEscapeEach(s: string)
    ensures Unescape(EscapeEach(s)) == s
  {
    if s != [] {
      UnescapeHead(s[0], EscapeEach(s[1..]));
      UnescapeEscapeEach(s[1..]);
      assert s == [s[0]] + s[1..];
    }
  }

  /** Escaping loses nothing: reading the entities back gives the original content. */
  lemma UnescapeEscape(s: string)
    ensures Unescape(Escape(s)) == s
  {
    EscapeIsPerCharacter(s);
    UnescapeEscapeEach(s);
  }

  lemma {:induction false} EscapeEachNewlines(s: string)
    ensures Count(EscapeEach(s), '\n') == Count(s, '\n')
  {
    if s != [] {
      var head := EscapeChar(s[0]);
      assert Count(head, '\n') == (if s[0] == '\n' then 1 else 0) by {
        if s[0] == '&' || s[0] == '<' || s[0] == '>' || s[0] == '"' || s[0] == '\'' {
          CountAbsent(head, '\n');
        } else {
          assert head == [s[0]];
          assert head[1..] == [];
        }
      }
      CountAppend(head, EscapeEach(s[1..]), '\n');
      EscapeEachNewlines(s[1..]);
    }
  }

  /** Escaping neither adds nor removes line breaks. */
  lemma EscapeKeepsNewlines(s: string)
    ensures Count(Escape(s), '\n') == Count(s, '\n')
  {
    EscapeIsPerCharacter(s);
    EscapeEachNewlines(s);
  }

  /** Text holding none of the five reserved characters. */
  predicate Plain(s: string) {
    '&' !in s && '<' !in s && '>' !in s && '"' !in s && '\'' !in s
  }

  lemma {:induction false} EscapeEachPlain(s: string)
    requires Plain(s)
    ensures EscapeEach(s) == s
  {
    if s != [] {
      assert s[0] in s;
      assert s == [s[0]] + s[1..];
      EscapeEachPlain(s[1..]);
    }
  }

  /** Escaping leaves text without reserved characters unchanged. */
  lemma EscapePlain(s: string)
    requires Plain(s)
    ensures Escape(s) == s
  {
    EscapeIsPerCharacter(s);
    EscapeEachPlain(s);
  }
}
