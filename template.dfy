/**
 * `fillTemplate(template, replacements)`: every `${key}` placeholder is replaced by
 * `replacements[key] || ''`, using the global regular expression `/\$\{(.*?)}/g`.
 *
 * The expression's meaning is spelled out here: a placeholder starts at a `$` followed by `{`;
 * its key runs, non-greedily, up to the FIRST following `}`, and `.` does not match a line
 * terminator, so a terminator before that `}` means there is no placeholder at that position.
 * The global replace scans left to right, inserts each value as it is and resumes after the
 * placeholder, never rescanning inserted text.
 */
module Template {
  import opened Wrappers
  import opened Js

  predicate IsLineTerminator(c: char) {
    c == '\n' || c == '\r' || c == '\U{2028}' || c == '\U{2029}'
  }

  /** A character the key pattern `.*?` may pass over without stopping. */
  predicate Plain(c: char) {
    c != '}' && !IsLineTerminator(c)
  }

  function ShiftBy(o: Option<nat>, n: nat): Option<nat> {
    match o
    case None => None
    case Some(k) => Some(k + n)
  }

  /**
   * Where `.*?}` starting at index k ends: the index of the first `}` at or after k,
   * or None when a line terminator or the end of the text comes first.
   */
  function CloseFrom(s: string, k: nat): (r: Option<nat>)
    requires k <= |s|
    ensures r.Some? ==> k <= r.value < |s| && s[r.value] == '}'
    ensures r.Some? ==> forall j :: k <= j < r.value ==> Plain(s[j])
    decreases |s| - k
  {
    if k == |s| then None
    else if s[k] == '}' then Some(k)
    else if IsLineTerminator(s[k]) then None
    else CloseFrom(s, k + 1)
  }

  /** When a placeholder starts at index i, the index of its closing `}`. */
  function PlaceholderAt(t: string, i: nat): (r: Option<nat>)
    ensures r.Some? ==> i + 2 <= r.value < |t| && t[i] == '$' && t[i + 1] == '{' && t[r.value] == '}'
    ensures r.Some? ==> forall j :: i + 2 <= j < r.value ==> Plain(t[j])
  {
    if i + 2 <= |t| && t[i] == '$' && t[i + 1] == '{' then CloseFrom(t, i + 2) else None
  }

  /** The key of the placeholder that starts at p: the text between `${` and the first `}`. */
  function KeyAt(t: string, p: nat): string
    requires PlaceholderAt(t, p).Some?
  {
    t[p + 2..PlaceholderAt(t, p).value]
  }

  /** Where scanning resumes after the placeholder that starts at p (the regular expression's lastIndex). */
  function EndAt(t: string, p: nat): (e: nat)
    requires PlaceholderAt(t, p).Some?
    ensures p + 3 <= e <= |t|
  {
    PlaceholderAt(t, p).value + 1
  }

  /** No placeholder starts at any index in [from, to). */
  ghost predicate NoPlaceholderIn(t: string, from: nat, to: nat) {
    forall j :: from <= j < to ==> PlaceholderAt(t, j).None?
  }

  /** The property names a replacement value offers: an object's own keys, none for a primitive. */
  function PropertiesOf(replacements: JsValue): map<string, JsValue> {
    if replacements.Object? then replacements.fields else map[]
  }

  /** The callback `(match, key) => replacements[key] || ''`, its result converted to text. */
  function Lookup(fields: map<string, JsValue>, key: string): (r: string)
    ensures r == "" <==> key !in fields || !Truthy(fields[key])
    ensures key in fields && fields[key].Str? ==> r == fields[key].s
  {
    if key in fields && Truthy(fields[key]) then ToString(fields[key]) else ""
  }

  /**
   * `t.replace(/\$\{(.*?)}/g, replacer)` applied to t[i..]: each placeholder is replaced by
   * `replacer(key)`; all other characters are copied.
   */
  function SubstituteFrom(t: string, i: nat, replacer: string -> string): string
    requires i <= |t|
    decreases |t| - i
  {
    if i == |t| then ""
    else if PlaceholderAt(t, i).Some? then replacer(KeyAt(t, i)) + SubstituteFrom(t, EndAt(t, i), replacer)
    else [t[i]] + SubstituteFrom(t, i + 1, replacer)
  }

  /** The replacer `fillTemplate` hands to `replace`. */
  function Replacer(replacements: JsValue): string -> string {
    key => Lookup(PropertiesOf(replacements), key)
  }

  /** `fillTemplate`: a falsy replacement value leaves the template as it is. */
  function FillTemplate(template: string, replacements: JsValue): (r: string)
    ensures !Truthy(replacements) ==> r == template
  {
    if !Truthy(replacements) then template else SubstituteFrom(template, 0, Replacer(replacements))
  }

  // ---------------------------------------------------------------------------
  // Reference definition: the replace algorithm of ECMAScript's RegExp.prototype[@@replace]
  // with the global flag, written as "find the next match at or after lastIndex, copy the
  // text before it, append the replacement, continue after the match".
  // ---------------------------------------------------------------------------

  /** The leftmost index at or after `from` where a placeholder starts. */
  function NextPlaceholder(t: string, from: nat): (r: Option<nat>)
    requires from <= |t|
    ensures r.Some? ==> from <= r.value < |t| && PlaceholderAt(t, r.value).Some?
    ensures r.Some? ==> NoPlaceholderIn(t, from, r.value)
    ensures r.None? ==> NoPlaceholderIn(t, from, |t|)
    decreases |t| - from
  {
    if from == |t| then None
    else if PlaceholderAt(t, from).Some? then Some(from)
    else NextPlaceholder(t, from + 1)
  }

  function ReplaceFrom(t: string, lastIndex: nat, replacer: string -> string): string
    requires lastIndex <= |t|
    decreases |t| - lastIndex
  {
    match NextPlaceholder(t, lastIndex)
    case None => t[lastIndex..]
    case Some(p) => t[lastIndex..p] + (replacer(KeyAt(t, p)) + ReplaceFrom(t, EndAt(t, p), replacer))
  }

  // ---------------------------------------------------------------------------
  // Properties
  // ---------------------------------------------------------------------------

  /** Text in which no placeholder starts is copied unchanged. */
  lemma {:induction false} CopiesPlainText(t: string, i: nat, p: nat, replacer: string -> string)
    requires i <= p <= |t|
    requires NoPlaceholderIn(t, i, p)
    ensures SubstituteFrom(t, i, replacer) == t[i..p] + SubstituteFrom(t, p, replacer)
    decreases p - i
  {
    if i == p {
      assert t[i..p] == [];
    } else {
      assert PlaceholderAt(t, i).None?;
      CopiesPlainText(t, i + 1, p, replacer);
      calc {
        SubstituteFrom(t, i, replacer);
        [t[i]] + SubstituteFrom(t, i + 1, replacer);
        [t[i]] + (t[i + 1..p] + SubstituteFrom(t, p, replacer));
        { assert [t[i]] + t[i + 1..p] == t[i..p]; }
        t[i..p] + SubstituteFrom(t, p, replacer);
      }
    }
  }

  /** Every placeholder starts with `$`, so text without one has none. */
  lemma WithoutDollarNoPlaceholder(t: string)
    requires '$' !in t
    ensures NoPlaceholderIn(t, 0, |t|)
  {
  }

  /** A template with no placeholder is returned unchanged, whatever the replacements. */
  lemma NoPlaceholderUnchanged(template: string, replacements: JsValue)
    requires NoPlaceholderIn(template, 0, |template|)
    ensures FillTemplate(template, replacements) == template
  {
    if Truthy(replacements) {
      CopiesPlainText(template, 0, |template|, Replacer(replacements));
    }
  }

  /**
   * The leftmost placeholder: the text before it is kept, it is replaced by the value of the key
   * that ends at the first `}`, and filling resumes after that `}` (the value is not rescanned).
   */
  lemma LeftmostPlaceholderReplaced(template: string, fields: map<string, JsValue>, p: nat)
    requires p < |template| && PlaceholderAt(template, p).Some?
    requires NoPlaceholderIn(template, 0, p)
    ensures FillTemplate(template, Object(fields))
            == template[..p] + (Lookup(fields, KeyAt(template, p)) + SubstituteFrom(template, EndAt(template, p), Replacer(Object(fields))))
  {
    var replacer := Replacer(Object(fields));
    assert replacer(KeyAt(template, p)) == Lookup(fields, KeyAt(template, p));
    CopiesPlainText(template, 0, p, replacer);
  }

  /** One step of the reference algorithm: copy up to the next placeholder, insert its value, go on after it. */
  lemma {:induction false} ReplaceStep(t: string, i: nat, replacer: string -> string, p: nat)
    requires i <= |t|
    requires NextPlaceholder(t, i) == Some(p)
    ensures ReplaceFrom(t, i, replacer) == t[i..p] + (replacer(KeyAt(t, p)) + ReplaceFrom(t, EndAt(t, p), replacer))
  {
  }

  /** The recursive filling agrees with the ECMAScript global-replace algorithm. */
  lemma {:induction false} AgreesWithGlobalReplace(t: string, i: nat, replacer: string -> string)
    requires i <= |t|
    ensures SubstituteFrom(t, i, replacer) == ReplaceFrom(t, i, replacer)
    decreases |t| - i
  {
    match NextPlaceholder(t, i)
    case None =>
      CopiesPlainText(t, i, |t|, replacer);
      assert ReplaceFrom(t, i, replacer) == t[i..];
    case Some(p) =>
      var value := replacer(KeyAt(t, p));
      calc {
        SubstituteFrom(t, i, replacer);
        { CopiesPlainText(t, i, p, replacer); }
        t[i..p] + SubstituteFrom(t, p, replacer);
        t[i..p] + (value + SubstituteFrom(t, EndAt(t, p), replacer));
        { AgreesWithGlobalReplace(t, EndAt(t, p), replacer); }
        t[i..p] + (value + ReplaceFrom(t, EndAt(t, p), replacer));
        { ReplaceStep(t, i, replacer, p); }
        ReplaceFrom(t, i, replacer);
      }
  }

  /** `fillTemplate` is the global replace of the whole template. */
  lemma FillTemplateIsGlobalReplace(template: string, replacements: JsValue)
    requires Truthy(replacements)
    ensures FillTemplate(template, replacements) == ReplaceFrom(template, 0, Replacer(replacements))
  {
    AgreesWithGlobalReplace(template, 0, Replacer(replacements));
  }

  // ---------------------------------------------------------------------------
  // An opener without a closing brace, and placeholders left in the output
  // ---------------------------------------------------------------------------

  /** Scanning for the closing brace behind a prefix is scanning the rest. */
  lemma {:induction false} CloseFromAppend(a: string, b: string, k: nat)
    requires k <= |b|
    ensures CloseFrom(a + b, |a| + k) == ShiftBy(CloseFrom(b, k), |a|)
    decreases |b| - k
  {
    var s := a + b;
    if k < |b| {
      assert s[|a| + k] == b[k];
      CloseFromAppend(a, b, k + 1);
    }
  }

  /** Whether a placeholder starts at a position behind a prefix depends only on the rest. */
  lemma PlaceholderAtAppend(a: string, b: string, j: nat)
    ensures PlaceholderAt(a + b, |a| + j) == ShiftBy(PlaceholderAt(b, j), |a|)
  {
    var s := a + b;
    if j + 2 <= |b| {
      assert s[|a| + j] == b[j] && s[|a| + j + 1] == b[j + 1];
      CloseFromAppend(a, b, j + 2);
    }
  }

  /** Text with no placeholder-closing `}` keeps none after filling: values are only inserted behind a `}`. */
  lemma {:induction false} UnclosedStaysUnclosed(t: string, k: nat, replacer: string -> string)
    requires k <= |t| && CloseFrom(t, k).None?
    ensures CloseFrom(SubstituteFrom(t, k, replacer), 0).None?
    decreases |t| - k
  {
    if k < |t| {
      if IsLineTerminator(t[k]) {
        assert PlaceholderAt(t, k).None?;
      } else {
        // t[k] is an ordinary character, so the scan goes on at k + 1
        assert CloseFrom(t, k + 1).None?;
        if k + 2 <= |t| && t[k + 1] == '{' {
          // a `{` does not stop the scan either, so no placeholder can start at k
          assert CloseFrom(t, k + 1) == CloseFrom(t, k + 2);
        }
        assert PlaceholderAt(t, k).None?;
        var rest := SubstituteFrom(t, k + 1, replacer);
        UnclosedStaysUnclosed(t, k + 1, replacer);
        CloseFromAppend([t[k]], rest, 0);
        assert SubstituteFrom(t, k, replacer) == [t[k]] + rest;
      }
    }
  }

  /**
   * A `${` with no closing `}` before the next line terminator (or the end) is not a placeholder:
   * it is copied as it is, and the filled text after it still does not close it.
   */
  lemma UnclosedOpenerKept(t: string, i: nat, replacer: string -> string)
    requires i + 2 <= |t| && t[i] == '$' && t[i + 1] == '{'
    requires CloseFrom(t, i + 2).None?
    ensures SubstituteFrom(t, i, replacer) == "${" + SubstituteFrom(t, i + 2, replacer)
    ensures PlaceholderAt(SubstituteFrom(t, i, replacer), 0).None?
  {
    assert PlaceholderAt(t, i).None?;
    assert PlaceholderAt(t, i + 1).None?;
    var rest := SubstituteFrom(t, i + 2, replacer);
    assert SubstituteFrom(t, i, replacer) == "${" + rest;
    UnclosedStaysUnclosed(t, i + 2, replacer);
    CloseFromAppend("${", rest, 0);
  }

  /** A value that cannot help form a placeholder: not empty, and free of `$` and `{`. */
  predicate Inert(v: string) {
    v != "" && '$' !in v && '{' !in v
  }

  /** Every placeholder of t at or after i is replaced by an inert value. */
  ghost predicate InertReplacements(t: string, i: nat, replacer: string -> string) {
    forall j :: i <= j < |t| && PlaceholderAt(t, j).Some? ==> Inert(replacer(KeyAt(t, j)))
  }

  /** The first character copied from the template does not start a placeholder of the output. */
  lemma NoPlaceholderAtFront(t: string, i: nat, replacer: string -> string)
    requires i < |t| && PlaceholderAt(t, i).None?
    requires InertReplacements(t, i + 1, replacer)
    ensures PlaceholderAt([t[i]] + SubstituteFrom(t, i + 1, replacer), 0).None?
  {
    var out := [t[i]] + SubstituteFrom(t, i + 1, replacer);
    if t[i] == '$' && i + 1 < |t| {
      if PlaceholderAt(t, i + 1).Some? {
        var v := replacer(KeyAt(t, i + 1));
        assert out[1] == v[0];
        assert v[0] in v;
      } else if t[i + 1] == '{' {
        if i + 2 == |t| {
          assert |out| == 2;
        } else {
          UnclosedOpenerKept(t, i, replacer);
        }
      }
    }
  }

  /** When every inserted value is inert, no placeholder is left in the filled text. */
  lemma {:induction false} FilledHasNoPlaceholder(t: string, i: nat, replacer: string -> string)
    requires i <= |t| && InertReplacements(t, i, replacer)
    ensures var out := SubstituteFrom(t, i, replacer); NoPlaceholderIn(out, 0, |out|)
    decreases |t| - i
  {
    if i < |t| {
      var out := SubstituteFrom(t, i, replacer);
      if PlaceholderAt(t, i).Some? {
        var v := replacer(KeyAt(t, i));
        var rest := SubstituteFrom(t, EndAt(t, i), replacer);
        FilledHasNoPlaceholder(t, EndAt(t, i), replacer);
        assert out == v + rest;
        forall j | 0 <= j < |out| ensures PlaceholderAt(out, j).None? {
          if j < |v| {
            assert out[j] == v[j] && v[j] in v;
          } else {
            PlaceholderAtAppend(v, rest, j - |v|);
          }
        }
      } else {
        var rest := SubstituteFrom(t, i + 1, replacer);
        FilledHasNoPlaceholder(t, i + 1, replacer);
        assert out == [t[i]] + rest;
        forall j | 0 <= j < |out| ensures PlaceholderAt(out, j).None? {
          if j == 0 {
            NoPlaceholderAtFront(t, i, replacer);
          } else {
            PlaceholderAtAppend([t[i]], rest, j - 1);
          }
        }
      }
    }
  }

  /**
   * Every placeholder is replaced: when each placeholder's value is present, truthy and free of
   * `$` and `{`, the filled template contains no `${...}` placeholder at all.
   */
  lemma FillTemplateLeavesNoPlaceholder(template: string, replacements: JsValue)
    requires Truthy(replacements)
    requires InertReplacements(template, 0, Replacer(replacements))
    ensures var out := FillTemplate(template, replacements); NoPlaceholderIn(out, 0, |out|)
  {
    FilledHasNoPlaceholder(template, 0, Replacer(replacements));
  }

  // ---------------------------------------------------------------------------
  // Templates written as literal text and simple placeholders
  // ---------------------------------------------------------------------------

  /** A placeholder behind a prefix has the same key, and scanning resumes at the same offset. */
  lemma PlaceholderAppend(a: string, b: string, j: nat)
    requires PlaceholderAt(b, j).Some?
    ensures PlaceholderAt(a + b, |a| + j).Some?
    ensures KeyAt(a + b, |a| + j) == KeyAt(b, j)
    ensures EndAt(a + b, |a| + j) == |a| + EndAt(b, j)
  {
    PlaceholderAtAppend(a, b, j);
  }

  /** Filling the text behind a prefix does not depend on the prefix. */
  lemma {:induction false} SubstituteAppend(a: string, b: string, j: nat, replacer: string -> string)
    requires j <= |b|
    ensures SubstituteFrom(a + b, |a| + j, replacer) == SubstituteFrom(b, j, replacer)
    decreases |b| - j
  {
    if j < |b| {
      if PlaceholderAt(b, j).Some? {
        SubstituteAppend(a, b, EndAt(b, j), replacer);
        AppendPlaceholderStep(a, b, j, replacer);
      } else {
        SubstituteAppend(a, b, j + 1, replacer);
        AppendCharStep(a, b, j, replacer);
      }
    }
  }

  lemma AppendPlaceholderStep(a: string, b: string, j: nat, replacer: string -> string)
    requires j < |b| && PlaceholderAt(b, j).Some?
    requires SubstituteFrom(a + b, |a| + EndAt(b, j), replacer) == SubstituteFrom(b, EndAt(b, j), replacer)
    ensures SubstituteFrom(a + b, |a| + j, replacer) == SubstituteFrom(b, j, replacer)
  {
    PlaceholderAppend(a, b, j);
  }

  lemma AppendCharStep(a: string, b: string, j: nat, replacer: string -> string)
    requires j < |b| && PlaceholderAt(b, j).None?
    requires SubstituteFrom(a + b, |a| + j + 1, replacer) == SubstituteFrom(b, j + 1, replacer)
    ensures SubstituteFrom(a + b, |a| + j, replacer) == SubstituteFrom(b, j, replacer)
  {
    PlaceholderAtAppend(a, b, j);
    assert (a + b)[|a| + j] == b[j];
  }

  /** A piece of a template: literal text, or a placeholder `${key}`. */
  datatype Piece = Text(s: string) | Hole(key: string)

  /** The template text the pieces spell. */
  function Render(pieces: seq<Piece>): string {
    if pieces == [] then ""
    else
      match pieces[0]
      case Text(s) => s + Render(pieces[1..])
      case Hole(key) => "${" + key + "}" + Render(pieces[1..])
  }

  /** What filling should produce: each text as it is, each placeholder replaced by its value. */
  function Resolve(pieces: seq<Piece>, replacer: string -> string): string {
    if pieces == [] then ""
    else
      match pieces[0]
      case Text(s) => s + Resolve(pieces[1..], replacer)
      case Hole(key) => replacer(key) + Resolve(pieces[1..], replacer)
  }

  /** Texts without `$`, and keys that are on one line and contain no `}`. */
  predicate SimplePiece(piece: Piece) {
    match piece
    case Text(s) => '$' !in s
    case Hole(key) => forall c :: c in key ==> Plain(c)
  }

  /** The scan for `}` passes over ordinary characters and stops at the brace. */
  lemma {:induction false} CloseFromPlain(s: string, k: nat, m: nat)
    requires k <= m < |s| && s[m] == '}'
    requires forall j :: k <= j < m ==> Plain(s[j])
    ensures CloseFrom(s, k) == Some(m)
    decreases m - k
  {
    if k < m {
      CloseFromPlain(s, k + 1, m);
    }
  }

  /** A template made of simple pieces is filled piece by piece. */
  lemma {:induction false} FillSimplePieces(pieces: seq<Piece>, replacer: string -> string)
    requires forall i :: 0 <= i < |pieces| ==> SimplePiece(pieces[i])
    ensures SubstituteFrom(Render(pieces), 0, replacer) == Resolve(pieces, replacer)
  {
    if pieces != [] {
      var rest := Render(pieces[1..]);
      FillSimplePieces(pieces[1..], replacer);
      match pieces[0]
      case Text(s) =>
        var t := s + rest;
        forall j | 0 <= j < |s| ensures PlaceholderAt(t, j).None? {
          assert t[j] == s[j] && s[j] in s;
        }
        CopiesPlainText(t, 0, |s|, replacer);
        SubstituteAppend(s, rest, 0, replacer);
        assert t[0..|s|] == s;
      case Hole(key) =>
        var opener := "${" + key + "}";
        var t := opener + rest;
        forall j | 2 <= j < |key| + 2 ensures Plain(t[j]) {
          assert t[j] == key[j - 2] && key[j - 2] in key;
        }
        CloseFromPlain(t, 2, |key| + 2);
        assert KeyAt(t, 0) == key;
        assert EndAt(t, 0) == |opener|;
        SubstituteAppend(opener, rest, 0, replacer);
    }
  }

  /** `fillTemplate` on a template made of simple pieces, with an object of replacement values. */
  lemma FillTemplatePieces(pieces: seq<Piece>, fields: map<string, JsValue>)
    requires forall i :: 0 <= i < |pieces| ==> SimplePiece(pieces[i])
    ensures FillTemplate(Render(pieces), Object(fields)) == Resolve(pieces, Replacer(Object(fields)))
  {
    FillSimplePieces(pieces, Replacer(Object(fields)));
  }
}

