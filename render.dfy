/**
 * Placeholder substitution of the template engine: every `{{key}}` whose key
 * is made of word characters is replaced, left to right and without
 * overlap, by the context's value for that key when the value is truthy in
 * the JavaScript sense, and is otherwise left as it is. The replacement
 * text is not scanned again.
 */
module Render {
  import opened Results

  /** The kinds of value the generator puts into a template context. */
  datatype Value = Text(s: string) | Number(n: int) | List(items: seq<string>) | Undefined

  type Context = map<string, Value>

  /** JavaScript truthiness: the empty string, zero and `undefined` are falsy; every array is truthy. */
  predicate Truthy(v: Value) {
    match v
    case Text(s) => s != ""
    case Number(n) => n != 0
    case List(_) => true
    case Undefined => false
  }

  function DigitChar(d: nat): char
    requires d < 10
  {
    "0123456789"[d]
  }

  /** The decimal numeral of `n`, without leading zeros. */
  function Digits(n: nat): (r: string)
    ensures |r| > 0
    ensures forall i | 0 <= i < |r| :: '0' <= r[i] <= '9'
    ensures n > 0 ==> r[0] != '0'
  {
    if n < 10 then [DigitChar(n)] else Digits(n / 10) + [DigitChar(n % 10)]
  }

  /** The numeric value of a string of decimal digits. */
  function DigitsValue(s: string): int
  {
    if s == [] then 0 else 10 * DigitsValue(s[..|s| - 1]) + (s[|s| - 1] as int - '0' as int)
  }

  /** Reading back the numeral gives the number. */
  lemma {:induction false} DigitsRoundTrip(n: nat)
    ensures DigitsValue(Digits(n)) == n
  {
    if n >= 10 {
      DigitsRoundTrip(n / 10);
      var r := Digits(n);
      assert r[..|r| - 1] == Digits(n / 10);
    }
  }

  /** Joins the strings with `sep` between neighbours (Array.prototype.join). */
  function Join(items: seq<string>, sep: string): string {
    if items == [] then ""
    else if |items| == 1 then items[0]
    else Join(items[..|items| - 1], sep) + sep + items[|items| - 1]
  }

  /** String(v): how a substituted value is written into the text. */
  function ToText(v: Value): string {
    match v
    case Text(s) => s
    case Number(n) => if n < 0 then "-" + Digits(-n) else Digits(n)
    case List(items) => Join(items, ",")
    case Undefined => "undefined"
  }

  /** A character of the regular expression class `\w`. */
  predicate IsWordChar(c: char) {
    'a' <= c <= 'z' || 'A' <= c <= 'Z' || '0' <= c <= '9' || c == '_'
  }

  /** A key that `\w+` matches in full. */
  predicate IsWord(k: string) {
    |k| > 0 && forall i | 0 <= i < |k| :: IsWordChar(k[i])
  }

  /** The length of the longest run of word characters at the start of `t`. */
  function WordRun(t: string): (k: nat)
    ensures k <= |t|
    ensures forall i | 0 <= i < k :: IsWordChar(t[i])
    ensures k < |t| ==> !IsWordChar(t[k])
  {
    if t != [] && IsWordChar(t[0]) then 1 + WordRun(t[1..]) else 0
  }

  /** The placeholder text for `key`. */
  function Placeholder(key: string): string {
    "{{" + key + "}}"
  }

  /**
   * The key of the placeholder `{{key}}` that `t` starts with, if any: the
   * pattern /\{\{(\w+)\}\}/ tried at the first position of `t`.
   */
  function PlaceholderAt(t: string): (key: Option<string>)
    ensures key.Some? ==> IsWord(key.value) && |key.value| + 4 <= |t|
    ensures key.Some? ==> t[..|key.value| + 4] == Placeholder(key.value)
  {
    if |t| >= 2 && t[0] == '{' && t[1] == '{' then
      var k := WordRun(t[2..]);
      if k > 0 && k + 4 <= |t| && t[k + 2] == '}' && t[k + 3] == '}' then
        var key := t[2..k + 2];
        assert t[..k + 4] == Placeholder(key);
        Some(key)
      else None
    else None
  }

  /** The key's value resolves the placeholder: it exists and is truthy. */
  predicate Resolves(ctx: Context, key: string) {
    key in ctx && Truthy(ctx[key])
  }

  /** `context[key] || match`: the value's text, or the placeholder itself. */
  function Replacement(ctx: Context, key: string): string {
    if Resolves(ctx, key) then ToText(ctx[key]) else Placeholder(key)
  }

  /** String.prototype.replace with /\{\{(\w+)\}\}/g and the lookup above. */
  function RenderTemplate(t: string, ctx: Context): string
    decreases |t|
  {
    if t == [] then []
    else
      match PlaceholderAt(t)
      case Some(key) => Replacement(ctx, key) + RenderTemplate(t[|key| + 4..], ctx)
      case None => [t[0]] + RenderTemplate(t[1..], ctx)
  }

  /** A well-formed placeholder is recognised with exactly its key, whatever follows it. */
  lemma PlaceholderOf(key: string, rest: string)
    requires IsWord(key)
    ensures PlaceholderAt(Placeholder(key) + rest) == Some(key)
  {
    var t := Placeholder(key) + rest;
    var tail := t[2..];
    assert tail == key + "}}" + rest;
    var k := WordRun(tail);
    assert forall i | 0 <= i < |key| :: tail[i] == key[i];
    assert tail[|key|] == '}' && !IsWordChar('}');
    assert k == |key|;
    assert t[2..k + 2] == key;
  }

  /** Every placeholder of `t`, wherever it starts, names a key that does not resolve. */
  predicate AllUnresolved(t: string, ctx: Context) {
    forall i | 0 <= i < |t| :: PlaceholderAt(t[i..]).Some? ==> !Resolves(ctx, PlaceholderAt(t[i..]).value)
  }

  lemma AllUnresolvedSuffix(t: string, ctx: Context, m: nat)
    requires AllUnresolved(t, ctx) && m <= |t|
    ensures AllUnresolved(t[m..], ctx)
  {
    forall i | 0 <= i < |t[m..]|
      ensures PlaceholderAt(t[m..][i..]).Some? ==> !Resolves(ctx, PlaceholderAt(t[m..][i..]).value)
    {
      assert t[m..][i..] == t[m + i..];
    }
  }

  /**
   * A text whose placeholders all name missing or falsy keys renders to
   * itself: an unresolved placeholder is left verbatim, never blanked.
   */
  lemma {:induction false} RenderKeepsUnresolved(t: string, ctx: Context)
    requires AllUnresolved(t, ctx)
    ensures RenderTemplate(t, ctx) == t
    decreases |t|
  {
    if t != [] {
      var m := HeadLength(t);
      AllUnresolvedSuffix(t, ctx, m);
      AllUnresolvedFront(t, ctx);
      RenderKeepsUnresolved(t[m..], ctx);
      KeptHead(t, ctx);
    }
  }

  /** How much of `t` one step of the rendering consumes: a placeholder, or one character. */
  function HeadLength(t: string): (m: nat)
    requires t != []
    ensures 0 < m <= |t|
  {
    match PlaceholderAt(t)
    case Some(key) => |key| + 4
    case None => 1
  }

  lemma KeptHead(t: string, ctx: Context)
    requires t != [] && (PlaceholderAt(t).Some? ==> !Resolves(ctx, PlaceholderAt(t).value))
    requires RenderTemplate(t[HeadLength(t)..], ctx) == t[HeadLength(t)..]
    ensures RenderTemplate(t, ctx) == t
  {
    match PlaceholderAt(t)
    case Some(key) => UnresolvedHead(t, ctx, key);
    case None => PlainHead(t, ctx);
  }

  lemma AllUnresolvedFront(t: string, ctx: Context)
    requires AllUnresolved(t, ctx) && t != []
    ensures PlaceholderAt(t).Some? ==> !Resolves(ctx, PlaceholderAt(t).value)
  {
    assert t[0..] == t;
  }

  lemma PlainHead(t: string, ctx: Context)
    requires t != [] && PlaceholderAt(t).None?
    requires RenderTemplate(t[1..], ctx) == t[1..]
    ensures RenderTemplate(t, ctx) == t
  {
    calc {
      RenderTemplate(t, ctx);
      [t[0]] + RenderTemplate(t[1..], ctx);
      [t[0]] + t[1..];
      { assert t == [t[0]] + t[1..]; }
      t;
    }
  }

  lemma UnresolvedHead(t: string, ctx: Context, key: string)
    requires PlaceholderAt(t) == Some(key) && !Resolves(ctx, key)
    requires RenderTemplate(t[|key| + 4..], ctx) == t[|key| + 4..]
    ensures RenderTemplate(t, ctx) == t
  {
    var m := |key| + 4;
    calc {
      RenderTemplate(t, ctx);
      Replacement(ctx, key) + RenderTemplate(t[m..], ctx);
      { assert Replacement(ctx, key) == t[..m]; }
      t[..m] + t[m..];
      { assert t == t[..m] + t[m..]; }
      t;
    }
  }

  /** A text without any placeholder comes out unchanged, whatever the context. */
  lemma RenderWithoutPlaceholders(t: string, ctx: Context)
    requires forall i | 0 <= i < |t| :: PlaceholderAt(t[i..]).None?
    ensures RenderTemplate(t, ctx) == t
  {
    RenderKeepsUnresolved(t, ctx);
  }

  /** With an empty context every text renders to itself. */
  lemma RenderEmptyContext(t: string)
    ensures RenderTemplate(t, map[]) == t
  {
    RenderKeepsUnresolved(t, map[]);
  }

  /**
   * A placeholder at the front is replaced by its value's text (or kept when
   * unresolved) and rendering resumes right after it: the inserted text is
   * not scanned again.
   */
  lemma RenderPlaceholder(key: string, rest: string, ctx: Context)
    requires IsWord(key)
    ensures RenderTemplate(Placeholder(key) + rest, ctx) == Replacement(ctx, key) + RenderTemplate(rest, ctx)
  {
    var t := Placeholder(key) + rest;
    PlaceholderOf(key, rest);
    assert t[|key| + 4..] == rest;
  }

  /**
   * Text free of `{` before a placeholder is copied, the placeholder is
   * replaced (or kept when unresolved), and rendering resumes after it.
   */
  lemma RenderAfterPlain(p: string, key: string, rest: string, ctx: Context)
    requires '{' !in p && IsWord(key)
    ensures RenderTemplate(p + Placeholder(key) + rest, ctx) == p + Replacement(ctx, key) + RenderTemplate(rest, ctx)
  {
    var x := Placeholder(key);
    AppendAssoc(p, x, rest);
    assert forall i | 0 <= i < |p| :: p[i] in p;
    RenderPlainPrefix(p, x + rest, ctx);
    RenderPlaceholder(key, rest, ctx);
    AppendAssoc(p, Replacement(ctx, key), RenderTemplate(rest, ctx));
  }

  lemma AppendAssoc(a: string, b: string, c: string)
    ensures a + b + c == a + (b + c)
  {
  }

  /** Text free of `{` is copied as it is, whatever follows it. */
  lemma {:induction false} RenderPlainPrefix(p: string, t: string, ctx: Context)
    requires forall i | 0 <= i < |p| :: p[i] != '{'
    ensures RenderTemplate(p + t, ctx) == p + RenderTemplate(t, ctx)
    decreases |p|
  {
    if p == [] {
      assert p + t == t;
    } else {
      assert forall i | 0 <= i < |p[1..]| :: p[1..][i] == p[i + 1];
      RenderPlainPrefix(p[1..], t, ctx);
      PlainPrefixStep(p, t, ctx);
    }
  }

  lemma PlainPrefixStep(p: string, t: string, ctx: Context)
    requires p != [] && p[0] != '{'
    requires RenderTemplate(p[1..] + t, ctx) == p[1..] + RenderTemplate(t, ctx)
    ensures RenderTemplate(p + t, ctx) == p + RenderTemplate(t, ctx)
  {
    ConsAppend(p, t);
    PlainStep(p + t, ctx);
    ConsAppend(p, RenderTemplate(t, ctx));
  }

  /** Splitting the first character off a concatenation. */
  lemma ConsAppend(p: string, b: string)
    requires p != []
    ensures (p + b)[0] == p[0] && (p + b)[1..] == p[1..] + b
    ensures [p[0]] + (p[1..] + b) == p + b
  {
    assert p == [p[0]] + p[1..];
  }

  /** A character other than `{` is copied and rendering goes on after it. */
  lemma PlainStep(t: string, ctx: Context)
    requires t != [] && t[0] != '{'
    ensures RenderTemplate(t, ctx) == [t[0]] + RenderTemplate(t[1..], ctx)
  {
    assert PlaceholderAt(t).None?;
  }

  /** A text that starts with `{{`: no match begun before it can reach into it. */
  predicate OpensBraces(x: string) {
    |x| >= 2 && x[0] == '{' && x[1] == '{'
  }

  /** A text that starts with the placeholder for `k` is matched with exactly that key. */
  lemma PlaceholderExact(t: string, k: string)
    ensures IsWord(k) && |k| + 4 <= |t| && t[..|k| + 4] == Placeholder(k) ==> PlaceholderAt(t) == Some(k)
  {
    if IsWord(k) && |k| + 4 <= |t| && t[..|k| + 4] == Placeholder(k) {
      assert t == Placeholder(k) + t[|k| + 4..];
      PlaceholderOf(k, t[|k| + 4..]);
    }
  }

  /**
   * Appending a text that starts with `{{` to a non-empty `s` does not change
   * what the pattern matches at the start of `s`: a match inside `s` stays,
   * and none can run across the join, because the `{` there is neither a
   * word character nor `}`.
   */
  lemma PlaceholderBeforeBraces(s: string, x: string)
    requires s != [] && OpensBraces(x)
    ensures PlaceholderAt(s + x) == PlaceholderAt(s)
  {
    var t := s + x;
    match PlaceholderAt(s)
    case Some(k) =>
      assert t[..|k| + 4] == s[..|k| + 4];
      PlaceholderExact(t, k);
    case None =>
      forall k | IsWord(k) && |k| + 4 <= |t|
        ensures t[..|k| + 4] != Placeholder(k)
      {
        var n := |k| + 4;
        if n <= |s| {
          assert t[..n] == s[..n];
          PlaceholderExact(s, k);
        } else if |s| == 1 {
          assert t[..n][2] == x[1] && Placeholder(k)[2] == k[0] && IsWordChar(k[0]);
        } else if |s| - 2 < |k| {
          assert t[..n][|s|] == x[0] && Placeholder(k)[|s|] == k[|s| - 2] && IsWordChar(k[|s| - 2]);
        } else {
          assert t[..n][|s|] == x[0] && Placeholder(k)[|s|] == '}';
        }
      }
  }

  /** One step of the rendering at the front of a non-empty text. */
  function Head(t: string, ctx: Context): string
    requires t != []
  {
    match PlaceholderAt(t)
    case Some(key) => Replacement(ctx, key)
    case None => [t[0]]
  }

  lemma Unfold(t: string, ctx: Context)
    requires t != []
    ensures RenderTemplate(t, ctx) == Head(t, ctx) + RenderTemplate(t[HeadLength(t)..], ctx)
  {
  }

  /** Rendering `a + x` takes the same first step as rendering `a`, when `x` starts with `{{`. */
  lemma SameHead(a: string, x: string, ctx: Context)
    requires a != [] && OpensBraces(x)
    ensures HeadLength(a + x) == HeadLength(a) && Head(a + x, ctx) == Head(a, ctx)
    ensures (a + x)[HeadLength(a)..] == a[HeadLength(a)..] + x
  {
    PlaceholderBeforeBraces(a, x);
    assert (a + x)[0] == a[0];
  }

  lemma Assoc3(h: string, r: string, y: string)
    ensures h + (r + y) == (h + r) + y
  {
  }

  /**
   * Rendering splits at every point where the rest starts with `{{`: what
   * comes before is rendered on its own, whatever `{` it holds.
   */
  lemma {:induction false} RenderConcat(a: string, x: string, ctx: Context)
    requires OpensBraces(x)
    ensures RenderTemplate(a + x, ctx) == RenderTemplate(a, ctx) + RenderTemplate(x, ctx)
    decreases |a|
  {
    if a == [] {
      assert a + x == x;
    } else {
      var m := HeadLength(a);
      SameHead(a, x, ctx);
      RenderConcat(a[m..], x, ctx);
      Unfold(a + x, ctx);
      Unfold(a, ctx);
      Assoc3(Head(a, ctx), RenderTemplate(a[m..], ctx), RenderTemplate(x, ctx));
    }
  }

  /**
   * Substitution anywhere in a text: the text before a placeholder renders on
   * its own, the placeholder becomes its replacement (or stays when
   * unresolved), and rendering resumes after it.
   */
  lemma RenderSplit(a: string, key: string, b: string, ctx: Context)
    requires IsWord(key)
    ensures RenderTemplate(a + Placeholder(key) + b, ctx)
         == RenderTemplate(a, ctx) + Replacement(ctx, key) + RenderTemplate(b, ctx)
  {
    var x := Placeholder(key) + b;
    AppendAssoc(a, Placeholder(key), b);
    RenderConcat(a, x, ctx);
    RenderPlaceholder(key, b, ctx);
    Assoc3(RenderTemplate(a, ctx), Replacement(ctx, key), RenderTemplate(b, ctx));
  }

  /**
   * The value of a resolved placeholder is inserted as it is, whatever
   * placeholders it holds itself, wherever the placeholder stands: it is not
   * scanned again, and rendering goes on with the text after the placeholder.
   */
  lemma RenderDoesNotRescan(p: string, key: string, rest: string, ctx: Context)
    requires IsWord(key) && Resolves(ctx, key)
    ensures RenderTemplate(p + Placeholder(key) + rest, ctx) == RenderTemplate(p, ctx) + ToText(ctx[key]) + RenderTemplate(rest, ctx)
  {
    RenderSplit(p, key, rest, ctx);
  }

  /** For instance, a value `{{b}}` stays `{{b}}` even though `b` resolves. */
  lemma RenderDoesNotRescanExample()
    ensures RenderTemplate("{{a}}", map["a" := Text("{{b}}"), "b" := Text("x")]) == "{{b}}"
  {
    var ctx := map["a" := Text("{{b}}"), "b" := Text("x")];
    assert IsWord("a");
    RenderPlaceholder("a", "", ctx);
    assert Placeholder("a") + "" == "{{a}}";
    assert Replacement(ctx, "a") == "{{b}}";
  }

  /** Rendering is not idempotent: a second pass would substitute what the first inserted. */
  lemma RenderTwiceDiffers()
    ensures var ctx := map["a" := Text("{{b}}"), "b" := Text("x")];
            RenderTemplate(RenderTemplate("{{a}}", ctx), ctx) != RenderTemplate("{{a}}", ctx)
  {
    var ctx := map["a" := Text("{{b}}"), "b" := Text("x")];
    RenderDoesNotRescanExample();
    assert IsWord("b");
    RenderPlaceholder("b", "", ctx);
    assert Placeholder("b") + "" == "{{b}}";
    assert Replacement(ctx, "b") == "x";
  }
}
