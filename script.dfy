/**
 * The two pure helpers of static/js/script.js that the page uses to render an
 * item: the CSS class for a status label and HTML escaping of user text.
 */
module Script {
  import opened Wrappers
  import opened Todo

  // ---------------------------------------------------------------------------
  // getStatusClass

  /** `getStatusClass`: the CSS class for a status label; an unknown label falls back to "scheduled". */
  function GetStatusClass(status: string): (c: string)
    ensures c in {"scheduled", "in-progress", "completed"}
    ensures StatusFromLabel(status).None? ==> c == "scheduled"
  {
    if status == "예정" then "scheduled"
    else if status == "진행중" then "in-progress"
    else if status == "완료" then "completed"
    else "scheduled"
  }

  /** The class of each status's own label: one class per status, distinct for distinct statuses. */
  lemma StatusClassOfLabel(s: TodoStatus)
    ensures GetStatusClass(s.Label()) == (match s
      case Scheduled => "scheduled"
      case InProgress => "in-progress"
      case Completed => "completed")
  {
    StatusLabelRoundTrip(s);
  }

  /** The page can tell the three statuses apart by their class. */
  lemma StatusClassDistinguishes(s1: TodoStatus, s2: TodoStatus)
    requires GetStatusClass(s1.Label()) == GetStatusClass(s2.Label())
    ensures s1 == s2
  {
    StatusClassOfLabel(s1);
    StatusClassOfLabel(s2);
  }

  // ---------------------------------------------------------------------------
  // escapeHtml

  /** The five characters the replacement pattern matches. */
  predicate IsSpecial(c: char) {
    c == '&' || c == '<' || c == '>' || c == '"' || c == '\''
  }

  /** The characters that must never appear in escaped output (`&` does, as the start of an entity). */
  predicate IsMarkup(c: char) {
    c == '<' || c == '>' || c == '"' || c == '\''
  }

  /** The replacement for one character: its entity when it is special, the character itself otherwise. */
  function Entity(c: char): (e: string)
    ensures IsSpecial(c) ==> |e| >= 4 && e[0] == '&'
    ensures !IsSpecial(c) ==> e == [c]
    ensures forall i | 0 <= i < |e| :: !IsMarkup(e[i])
  {
    match c
    case '&' => "&amp;"
    case '<' => "&lt;"
    case '>' => "&gt;"
    case '"' => "&quot;"
    case '\'' => "&#039;"
    case _ => [c]
  }

  predicate HasSpecial(s: string) {
    exists i | 0 <= i < |s| :: IsSpecial(s[i])
  }

  /**
   * `escapeHtml`: one left-to-right pass replacing each special character by
   * its entity. The output is never shorter, and exactly as long only when
   * nothing was special, in which case it is the input; it contains none of
   * < > " '.
   */
  function EscapeHtml(text: string): (r: string)
    ensures |r| >= |text|
    ensures |r| == |text| <==> !HasSpecial(text)
    ensures !HasSpecial(text) ==> r == text
    ensures forall i | 0 <= i < |r| :: !IsMarkup(r[i])
  {
    if text == [] then []
    else
      var head, tail := Entity(text[0]), EscapeHtml(text[1..]);
      assert forall i | 0 <= i < |head + tail| :: !IsMarkup((head + tail)[i]) by {
        forall i | 0 <= i < |head + tail| ensures !IsMarkup((head + tail)[i]) {
          if i < |head| { assert (head + tail)[i] == head[i]; } else { assert (head + tail)[i] == tail[i - |head|]; }
        }
      }
      HasSpecialCons(text);
      head + tail
  }

  lemma HasSpecialCons(s: string)
    requires s != []
    ensures HasSpecial(s) <==> IsSpecial(s[0]) || HasSpecial(s[1..])
  {
    if HasSpecial(s[1..]) {
      var i :| 0 <= i < |s[1..]| && IsSpecial(s[1..][i]);
      assert s[i + 1] == s[1..][i];
    }
    if HasSpecial(s) && !IsSpecial(s[0]) {
      var i :| 0 <= i < |s| && IsSpecial(s[i]);
      assert s[1..][i - 1] == s[i];
    }
  }

  /** Escaping works character by character: escaping a concatenation concatenates the escapes. */
  lemma {:induction false} EscapeHtmlAppend(a: string, b: string)
    ensures EscapeHtml(a + b) == EscapeHtml(a) + EscapeHtml(b)
  {
    if a == [] {
      assert a + b == b;
    } else {
      assert (a + b)[0] == a[0];
      assert (a + b)[1..] == a[1..] + b;
      EscapeHtmlAppend(a[1..], b);
    }
  }

  /** The five replacements of the lookup table, and every other character kept as it is. */
  lemma EscapeHtmlTable(c: char)
    ensures EscapeHtml("&") == "&amp;" && EscapeHtml("<") == "&lt;" && EscapeHtml(">") == "&gt;"
    ensures EscapeHtml("\"") == "&quot;" && EscapeHtml("'") == "&#039;"
    ensures !IsSpecial(c) ==> EscapeHtml([c]) == [c]
  {
    assert ['&'][1..] == [] && ['<'][1..] == [] && ['>'][1..] == [];
    assert ['"'][1..] == [] && ['\''][1..] == [] && [c][1..] == [];
  }

  /** Escaping is a single pass: an entity that is already there is escaped again. */
  lemma EscapeHtmlNotIdempotent()
    ensures EscapeHtml("&amp;") == "&amp;amp;"
  {
    var rest := "amp;";
    assert !HasSpecial(rest) by {
      assert rest[0] == 'a' && rest[1] == 'm' && rest[2] == 'p' && rest[3] == ';';
    }
    assert "&amp;" == "&" + rest;
    EscapeHtmlAppend("&", rest);
    assert ['&'][1..] == [];
  }

  // ---------------------------------------------------------------------------
  // The inverse: what a browser's HTML parser reads back

  /** Decodes the five entities EscapeHtml writes; any other text, a lone `&` included, is kept. */
  function UnescapeHtml(s: string): (r: string)
    ensures |r| <= |s|
  {
    if s == [] then []
    else if |s| >= 5 && s[..5] == "&amp;" then "&" + UnescapeHtml(s[5..])
    else if |s| >= 4 && s[..4] == "&lt;" then "<" + UnescapeHtml(s[4..])
    else if |s| >= 4 && s[..4] == "&gt;" then ">" + UnescapeHtml(s[4..])
    else if |s| >= 6 && s[..6] == "&quot;" then "\"" + UnescapeHtml(s[6..])
    else if |s| >= 6 && s[..6] == "&#039;" then "'" + UnescapeHtml(s[6..])
    else [s[0]] + UnescapeHtml(s[1..])
  }

  /** Reading an entity, or a plain character, at the front of the text. */
  lemma UnescapeEntity(c: char, rest: string)
    ensures UnescapeHtml(Entity(c) + rest) == [c] + UnescapeHtml(rest)
  {
    match c
    case '&' => UnescapeAmp(rest);
    case '<' => UnescapeLt(rest);
    case '>' => UnescapeGt(rest);
    case '"' => UnescapeQuot(rest);
    case '\'' => UnescapeApos(rest);
    case _ => UnescapePlain(c, rest);
  }

  lemma UnescapeAmp(rest: string)
    ensures UnescapeHtml("&amp;" + rest) == "&" + UnescapeHtml(rest)
  {
    var s := "&amp;" + rest;
    assert s[..5] == "&amp;" && s[5..] == rest;
  }

  lemma UnescapeLt(rest: string)
    ensures UnescapeHtml("&lt;" + rest) == "<" + UnescapeHtml(rest)
  {
    var s := "&lt;" + rest;
    assert s[..4] == "&lt;" && s[4..] == rest;
    assert s[1] == 'l';
    assert !(|s| >= 5 && s[..5] == "&amp;") by {
      if |s| >= 5 { assert s[..5][1] == s[1]; }
    }
  }

  lemma UnescapeGt(rest: string)
    ensures UnescapeHtml("&gt;" + rest) == ">" + UnescapeHtml(rest)
  {
    var s := "&gt;" + rest;
    assert s[..4] == "&gt;" && s[4..] == rest;
    assert s[1] == 'g';
    assert !(|s| >= 5 && s[..5] == "&amp;") by {
      if |s| >= 5 { assert s[..5][1] == s[1]; }
    }
    assert s[..4] != "&lt;" by { assert s[..4][1] == s[1]; }
  }

  lemma UnescapeQuot(rest: string)
    ensures UnescapeHtml("&quot;" + rest) == "\"" + UnescapeHtml(rest)
  {
    var s := "&quot;" + rest;
    assert s[..6] == "&quot;" && s[6..] == rest;
    assert s[1] == 'q';
    assert s[..5] != "&amp;" by { assert s[..5][1] == s[1]; }
    assert s[..4] != "&lt;" && s[..4] != "&gt;" by { assert s[..4][1] == s[1]; }
  }

  lemma UnescapeApos(rest: string)
    ensures UnescapeHtml("&#039;" + rest) == "'" + UnescapeHtml(rest)
  {
    var s := "&#039;" + rest;
    assert s[..6] == "&#039;" && s[6..] == rest;
    assert s[1] == '#';
    assert s[..5] != "&amp;" by { assert s[..5][1] == s[1]; }
    assert s[..4] != "&lt;" && s[..4] != "&gt;" by { assert s[..4][1] == s[1]; }
    assert s[..6] != "&quot;" by { assert s[..6][1] == s[1]; }
  }

  lemma UnescapePlain(c: char, rest: string)
    requires !IsSpecial(c)
    ensures UnescapeHtml([c] + rest) == [c] + UnescapeHtml(rest)
  {
    var s := [c] + rest;
    assert s[0] == c && s[1..] == rest;
    assert !(|s| >= 5 && s[..5] == "&amp;") by {
      if |s| >= 5 { assert s[..5][0] == c; }
    }
    assert !(|s| >= 4 && (s[..4] == "&lt;" || s[..4] == "&gt;")) by {
      if |s| >= 4 { assert s[..4][0] == c; }
    }
    assert !(|s| >= 6 && (s[..6] == "&quot;" || s[..6] == "&#039;")) by {
      if |s| >= 6 { assert s[..6][0] == c; }
    }
  }

  /** Unescaping the escaped text gives the original text back, so no information is lost. */
  lemma {:induction false} EscapeRoundTrip(text: string)
    ensures UnescapeHtml(EscapeHtml(text)) == text
  {
    if text != [] {
      UnescapeEntity(text[0], EscapeHtml(text[1..]));
      EscapeRoundTrip(text[1..]);
    }
  }

  /** Different texts escape differently. */
  lemma EscapeHtmlInjective(a: string, b: string)
    requires EscapeHtml(a) == EscapeHtml(b)
    ensures a == b
  {
    EscapeRoundTrip(a);
    EscapeRoundTrip(b);
  }
}
