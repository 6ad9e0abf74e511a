/**
 * When `http.NewRequest` rejects a URL: it calls `net/url.Parse`, which cuts
 * the fragment off at the first '#', refuses a control byte in what comes
 * before it, and unescapes the path (everything before the first '?') and
 * the fragment, refusing a '%' that is not followed by two hex digits. The
 * query is kept raw, so nothing in it is refused.
 *
 * The rule below is stated for URLs whose scheme and authority are already
 * well formed and hold none of '%', '?', '#': the service's base URL
 * followed by a path built from an id.
 */
module GoURL {

  predicate IsHex(c: char)
  {
    ('0' <= c <= '9') || ('a' <= c <= 'f') || ('A' <= c <= 'F')
  }

  /** A byte Go's URL parser refuses outright (below space, or DEL). */
  predicate IsControl(c: char)
  {
    c < ' ' || c as int == 0x7f
  }

  /** The position of the first `c` in `s`, or `|s|` when there is none (`strings.Cut`). */
  function Index(s: string, c: char): (i: nat)
    ensures i <= |s|
    ensures forall j | 0 <= j < i :: s[j] != c
    ensures i < |s| ==> s[i] == c
  {
    if |s| == 0 then 0 else if s[0] == c then 0 else 1 + Index(s[1..], c)
  }

  /** A '%' at `i` that does not start a two-hex-digit escape. */
  predicate BadEscapeAt(s: string, i: nat)
    requires i < |s|
  {
    s[i] == '%' && !(i + 2 < |s| && IsHex(s[i + 1]) && IsHex(s[i + 2]))
  }

  /** `url.unescape` refuses the text. */
  predicate BadEscape(s: string)
  {
    exists i | 0 <= i < |s| :: BadEscapeAt(s, i)
  }

  predicate HasControl(s: string)
  {
    exists i | 0 <= i < |s| :: IsControl(s[i])
  }

  /**
   * `url.Parse(raw)` returns an error. Every refusal comes from a control
   * byte or a bad escape that is in `raw` itself: cutting at '#' and '?'
   * never makes an escape look short.
   */
  function ParseFails(raw: string): (r: bool)
    ensures r ==> HasControl(raw) || BadEscape(raw)
  {
    var h := Index(raw, '#');
    var beforeFragment := raw[..h];
    var fragment := if h < |raw| then raw[h + 1..] else "";
    var q := Index(beforeFragment, '?');
    var path := beforeFragment[..q];
    ControlInPrefix(raw, h);
    assert path == raw[..q];
    BadEscapeInPrefix(raw, q);
    BadEscapeInSuffix(raw, h + 1);
    HasControl(beforeFragment) || BadEscape(path) || BadEscape(fragment)
  }

  lemma ControlInPrefix(s: string, n: nat)
    requires n <= |s|
    ensures HasControl(s[..n]) ==> HasControl(s)
  {
    if HasControl(s[..n]) {
      var i :| 0 <= i < n && IsControl(s[..n][i]);
      assert IsControl(s[i]);
    }
  }

  /** A bad escape in a prefix that stops before a non-hex character (or at the end) is bad in the whole. */
  lemma BadEscapeInPrefix(s: string, n: nat)
    requires n <= |s| && (n == |s| || !IsHex(s[n]))
    ensures BadEscape(s[..n]) ==> BadEscape(s)
  {
    if BadEscape(s[..n]) {
      var i :| 0 <= i < n && BadEscapeAt(s[..n], i);
      assert BadEscapeAt(s, i);
    }
  }

  lemma BadEscapeInSuffix(s: string, k: nat)
    ensures k <= |s| && BadEscape(s[k..]) ==> BadEscape(s)
  {
    if k <= |s| && BadEscape(s[k..]) {
      var i :| 0 <= i < |s| - k && BadEscapeAt(s[k..], i);
      assert BadEscapeAt(s, k + i);
    }
  }

  /** Text with no control character and no '%'. */
  predicate Clean(s: string)
  {
    forall i | 0 <= i < |s| :: !IsControl(s[i]) && s[i] != '%'
  }

  /** Text with neither a '#' nor a '?', so all of it is path. */
  predicate PathOnly(s: string)
  {
    forall i | 0 <= i < |s| :: s[i] != '#' && s[i] != '?'
  }

  lemma CleanAppend(a: string, b: string)
    requires Clean(a) && Clean(b)
    ensures Clean(a + b)
  {
    assert forall i | |a| <= i < |a + b| :: (a + b)[i] == b[i - |a|];
  }

  lemma PathOnlyAppend(a: string, b: string)
    requires PathOnly(a) && PathOnly(b)
    ensures PathOnly(a + b)
  {
    assert forall i | |a| <= i < |a + b| :: (a + b)[i] == b[i - |a|];
  }

  /** A URL with no control character and no '%' always parses. */
  lemma CleanParses(raw: string)
    requires Clean(raw)
    ensures !ParseFails(raw)
  {
    var h := Index(raw, '#');
    var beforeFragment := raw[..h];
    var path := beforeFragment[..Index(beforeFragment, '?')];
    assert forall i | 0 <= i < |beforeFragment| :: beforeFragment[i] == raw[i];
    assert forall i | 0 <= i < |path| :: path[i] == raw[i];
    if h < |raw| {
      var fragment := raw[h + 1..];
      assert forall i | 0 <= i < |fragment| :: fragment[i] == raw[h + 1 + i];
    }
  }

  /**
   * With no '#' and no '?' anywhere, a malformed escape or a control
   * character anywhere makes the parse fail.
   */
  lemma {:induction false} PlainPathFails(raw: string, i: nat)
    requires PathOnly(raw)
    requires i < |raw| && (IsControl(raw[i]) || BadEscapeAt(raw, i))
    ensures ParseFails(raw)
  {
    assert Index(raw, '#') == |raw|;
    assert raw[..|raw|] == raw;
    assert Index(raw, '?') == |raw|;
  }
}
