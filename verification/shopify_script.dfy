/**
 * The two pure helpers of the Shopify product script: `parseTags`, which
 * regroups the command-line words into tags closed by a trailing comma, and
 * `image_title`, which names the product after the image file.
 *
 * Python strings are modelled as `string`; slicing follows Python's rules
 * (`s[:-1]` of the empty string is the empty string).
 */
module ShopifyScript {
  import opened Wrappers

  /** The one exception parseTags can raise: `elem[-1]` on an empty word. */
  datatype PyError = IndexError

  /** `sep.join(xs)`. */
  function Join(sep: string, xs: seq<string>): string
  {
    if |xs| == 0 then "" else if |xs| == 1 then xs[0] else Join(sep, xs[..|xs| - 1]) + sep + xs[|xs| - 1]
  }

  /** Python's `s[:-1]`. */
  function DropLast(s: string): (r: string)
    ensures |s| > 0 ==> s == r + [s[|s| - 1]]
    ensures |s| == 0 ==> r == ""
  {
    if |s| == 0 then "" else s[..|s| - 1]
  }

  /** A word that closes a tag: it ends in a comma. */
  predicate CommaEnded(w: string)
  {
    |w| > 0 && w[|w| - 1] == ','
  }

  predicate NoCommaEnded(w: seq<string>)
  {
    forall k | 0 <= k < |w| :: !CommaEnded(w[k])
  }

  /** The index of the first comma-ended word, or |w| when there is none. */
  function FirstCommaEnded(w: seq<string>): (k: nat)
    ensures k <= |w|
    ensures k < |w| ==> CommaEnded(w[k])
    ensures forall j | 0 <= j < k :: !CommaEnded(w[j])
  {
    if |w| == 0 then 0
    else if CommaEnded(w[0]) then 0
    else 1 + FirstCommaEnded(w[1..])
  }

  /**
   * The tags a word list stands for: the words up to and including the first
   * comma-ended one, joined by spaces and without that comma, then the tags
   * of the rest; the words after the last comma-ended one form the last tag
   * (possibly empty).
   */
  function Tags(w: seq<string>): (t: seq<string>)
    ensures |t| > 0
    decreases |w|
  {
    var k := FirstCommaEnded(w);
    if k == |w| then [Join(" ", w)]
    else [DropLast(Join(" ", w[..k + 1]))] + Tags(w[k + 1..])
  }

  /** How many words close a tag. */
  function CommaCount(w: seq<string>): nat
  {
    if |w| == 0 then 0 else (if CommaEnded(w[0]) then 1 else 0) + CommaCount(w[1..])
  }

  /** A group of words ending at its only comma-ended word starts the tag list. */
  lemma TagsOfGroup(g: seq<string>, rest: seq<string>)
    requires |g| > 0 && NoCommaEnded(g[..|g| - 1]) && CommaEnded(g[|g| - 1])
    ensures Tags(g + rest) == [DropLast(Join(" ", g))] + Tags(rest)
  {
    var w := g + rest;
    var k := FirstCommaEnded(w);
    assert w[..|g|] == g;
    assert k == |g| - 1;
    assert w[k + 1..] == rest;
  }

  /** Words without a comma-ended one make a single tag. */
  lemma TagsOfOpenGroup(g: seq<string>)
    requires NoCommaEnded(g)
    ensures Tags(g) == [Join(" ", g)]
  {
  }

  /** The loop of parseTags after `i` words: the closed tags and the open group still stand for all the tags. */
  predicate ParseProgress(attrs: seq<string>, open: seq<string>, words: seq<string>, i: nat)
    requires i <= |words|
  {
    NoCommaEnded(open) && attrs + Tags(open + words[i..]) == Tags(words)
  }

  /** A word that does not end in a comma joins the open group. */
  lemma ParseKeepsOpen(attrs: seq<string>, open: seq<string>, words: seq<string>, i: nat)
    requires i < |words| && ParseProgress(attrs, open, words, i) && !CommaEnded(words[i])
    ensures ParseProgress(attrs, open + [words[i]], words, i + 1)
  {
    assert open + words[i..] == (open + [words[i]]) + words[i + 1..];
  }

  /** The open group and a comma-ended word make the next tag. */
  lemma CloseGroup(open: seq<string>, words: seq<string>, i: nat)
    requires i < |words| && NoCommaEnded(open) && CommaEnded(words[i])
    ensures Tags(open + words[i..]) == [DropLast(Join(" ", open + [words[i]]))] + Tags(words[i + 1..])
  {
    var g := open + [words[i]];
    assert open + words[i..] == g + words[i + 1..];
    assert g[..|g| - 1] == open;
    TagsOfGroup(g, words[i + 1..]);
  }

  /** A comma-ended word closes the open group as one tag. */
  lemma ParseCloses(attrs: seq<string>, open: seq<string>, words: seq<string>, i: nat)
    requires i < |words| && ParseProgress(attrs, open, words, i) && CommaEnded(words[i])
    ensures ParseProgress(attrs + [DropLast(Join(" ", open + [words[i]]))], [], words, i + 1)
  {
    var tag := DropLast(Join(" ", open + [words[i]]));
    var later := Tags(words[i + 1..]);
    CloseGroup(open, words, i);
    assert [] + words[i + 1..] == words[i + 1..];
    assert (attrs + [tag]) + later == attrs + ([tag] + later);
  }

  /**
   * parseTags: every word is appended to the open group; a comma-ended word
   * closes the group as one tag, spaces between the words and the comma
   * dropped; the open group left at the end is the last tag. An empty word
   * raises IndexError.
   */
  method ParseTags(tagArr: seq<string>) returns (r: Result<seq<string>, PyError>)
    ensures r.Failure? <==> exists k | 0 <= k < |tagArr| :: tagArr[k] == ""
    ensures r.Success? ==> r.value == Tags(tagArr)
  {
    var attrs: seq<string> := [];
    var tmpAttrs: seq<string> := [];
    var i := 0;
    assert tmpAttrs + tagArr[i..] == tagArr;
    while i < |tagArr|
      invariant 0 <= i <= |tagArr|
      invariant forall k | 0 <= k < i :: tagArr[k] != ""
      invariant ParseProgress(attrs, tmpAttrs, tagArr, i)
    {
      var elem := tagArr[i];
      if |elem| == 0 {
        return Failure(IndexError);
      }
      if elem[|elem| - 1] == ',' {
        ParseCloses(attrs, tmpAttrs, tagArr, i);
        var fullTag := Join(" ", tmpAttrs + [elem]);
        attrs := attrs + [DropLast(fullTag)];
        tmpAttrs := [];
      } else {
        ParseKeepsOpen(attrs, tmpAttrs, tagArr, i);
        tmpAttrs := tmpAttrs + [elem];
      }
      i := i + 1;
    }
    assert tmpAttrs + tagArr[i..] == tmpAttrs;
    TagsOfOpenGroup(tmpAttrs);
    attrs := attrs + [Join(" ", tmpAttrs)];
    return Success(attrs);
  }

  lemma {:induction false} CommaCountOfOpenGroup(w: seq<string>)
    requires NoCommaEnded(w)
    ensures CommaCount(w) == 0
  {
    if |w| > 0 {
      assert NoCommaEnded(w[1..]) by {
        forall k | 0 <= k < |w| - 1 ensures !CommaEnded(w[1..][k]) {
          assert w[1..][k] == w[k + 1];
        }
      }
      CommaCountOfOpenGroup(w[1..]);
    }
  }

  lemma {:induction false} CommaCountAppend(a: seq<string>, b: seq<string>)
    ensures CommaCount(a + b) == CommaCount(a) + CommaCount(b)
  {
    if |a| > 0 {
      assert (a + b)[1..] == a[1..] + b;
      CommaCountAppend(a[1..], b);
    } else {
      assert a + b == b;
    }
  }

  /** One tag per comma-ended word, plus the last one. */
  lemma {:induction false} TagsCount(w: seq<string>)
    ensures |Tags(w)| == 1 + CommaCount(w)
    decreases |w|
  {
    var k := FirstCommaEnded(w);
    if k == |w| {
      assert w[..k] == w;
      CommaCountOfOpenGroup(w);
    } else {
      assert w == w[..k] + [w[k]] + w[k + 1..];
      CommaCountOfOpenGroup(w[..k]);
      CommaCountAppend(w[..k] + [w[k]], w[k + 1..]);
      CommaCountAppend(w[..k], [w[k]]);
      assert CommaCount([w[k]]) == 1 by {
        assert [w[k]][1..] == [];
      }
      TagsCount(w[k + 1..]);
    }
  }

  /** The first group: comma-free but for its last word. */
  lemma FirstGroupShape(w: seq<string>)
    requires FirstCommaEnded(w) < |w|
    ensures var k := FirstCommaEnded(w); NoCommaEnded(w[..k + 1][..k]) && CommaEnded(w[..k + 1][k])
  {
    var k := FirstCommaEnded(w);
    assert w[..k + 1][..k] == w[..k];
  }

  /** The first tag comes from the first group. */
  lemma TagsUnfold(w: seq<string>)
    requires FirstCommaEnded(w) < |w|
    ensures var k := FirstCommaEnded(w); Tags(w) == [DropLast(Join(" ", w[..k + 1]))] + Tags(w[k + 1..])
  {
  }

  /** The words up to the first comma-ended one form the first group, and the first tag. */
  lemma SplitAtFirstComma(w: seq<string>)
    requires FirstCommaEnded(w) < |w|
    ensures var k := FirstCommaEnded(w); var g := w[..k + 1];
            w == g + w[k + 1..] && NoCommaEnded(g[..k]) && CommaEnded(g[k]) &&
            Tags(w) == [DropLast(Join(" ", g))] + Tags(w[k + 1..])
  {
    var k := FirstCommaEnded(w);
    assert w == w[..k + 1] + w[k + 1..];
    FirstGroupShape(w);
    TagsUnfold(w);
  }

  /**
   * The last tag is the space-join of the words after the last comma-ended
   * one (all the words when none is comma-ended).
   */
  lemma {:induction false} LastTagIsTail(w: seq<string>, j: nat)
    requires j <= |w| && NoCommaEnded(w[j..]) && (j == 0 || CommaEnded(w[j - 1]))
    ensures Tags(w)[|Tags(w)| - 1] == Join(" ", w[j..])
    decreases |w|
  {
    var k := FirstCommaEnded(w);
    if k == |w| {
      assert w[j..] == w;
    } else {
      LastGroupAfterFirst(w, j);
      var rest := w[k + 1..];
      SplitAtFirstComma(w);
      LastTagIsTail(rest, j - (k + 1));
    }
  }

  /** The words after the last comma-ended one lie beyond the first group. */
  lemma LastGroupAfterFirst(w: seq<string>, j: nat)
    requires j <= |w| && NoCommaEnded(w[j..]) && (j == 0 || CommaEnded(w[j - 1]))
    requires FirstCommaEnded(w) < |w|
    ensures var k := FirstCommaEnded(w); var rest := w[k + 1..];
            k + 1 <= j && rest[j - (k + 1)..] == w[j..] && (j == k + 1 || CommaEnded(rest[j - (k + 1) - 1]))
  {
    var k := FirstCommaEnded(w);
    var rest := w[k + 1..];
    assert rest[j - (k + 1)..] == w[j..];
    if j > k + 1 {
      assert rest[j - (k + 1) - 1] == w[j - 1];
    }
  }

  /** A trailing comma leaves an empty last tag. */
  lemma {:induction false} TrailingCommaGivesEmptyTag(w: seq<string>)
    requires |w| > 0 && CommaEnded(w[|w| - 1])
    ensures Tags(w)[|Tags(w)| - 1] == ""
    decreases |w|
  {
    var k := FirstCommaEnded(w);
    var rest := w[k + 1..];
    SplitAtFirstComma(w);
    if |rest| == 0 {
      TagsOfOpenGroup(rest);
    } else {
      assert rest[|rest| - 1] == w[|w| - 1];
      TrailingCommaGivesEmptyTag(rest);
    }
  }

  lemma {:induction false} JoinAppend(sep: string, a: seq<string>, b: seq<string>)
    requires |a| > 0 && |b| > 0
    ensures Join(sep, a + b) == Join(sep, a) + sep + Join(sep, b)
    decreases |b|
  {
    var ab := a + b;
    assert ab[..|ab| - 1] == a + b[..|b| - 1];
    if |b| > 1 {
      JoinAppend(sep, a, b[..|b| - 1]);
    } else {
      assert ab[..|ab| - 1] == a;
    }
  }

  /** A group closed by a comma-ended word joins to text ending in that comma. */
  lemma ClosedGroupEndsInComma(g: seq<string>)
    requires |g| > 0 && CommaEnded(g[|g| - 1])
    ensures Join(" ", g) == DropLast(Join(" ", g)) + ","
  {
    var full := Join(" ", g);
    var last := g[|g| - 1];
    if |g| > 1 {
      var front := Join(" ", g[..|g| - 1]) + " ";
      assert full == front + last;
      assert full[|full| - 1] == last[|last| - 1];
    }
    assert full == DropLast(full) + [full[|full| - 1]];
  }

  /** Putting one tag in front of a tag list. */
  lemma RejoinCons(t: string, ts: seq<string>, text: string)
    requires |ts| > 0 && Join(", ", ts) == text
    ensures Join(", ", [t] + ts) == t + ", " + text
  {
    JoinAppend(", ", [t], ts);
  }

  lemma CommaThenSpace(a: string, b: string)
    ensures (a + ",") + " " + b == a + ", " + b
  {
  }

  /** Rejoining survives one closed group in front. */
  lemma RejoinStep(g: seq<string>, rest: seq<string>)
    requires |g| > 0 && NoCommaEnded(g[..|g| - 1]) && CommaEnded(g[|g| - 1])
    requires |rest| > 0 && Join(", ", Tags(rest)) == Join(" ", rest)
    ensures Join(", ", Tags(g + rest)) == Join(" ", g + rest)
  {
    var tag := DropLast(Join(" ", g));
    TagsOfGroup(g, rest);
    RejoinCons(tag, Tags(rest), Join(" ", rest));
    ClosedGroupEndsInComma(g);
    JoinAppend(" ", g, rest);
    CommaThenSpace(tag, Join(" ", rest));
  }

  /**
   * Rejoining the tags with ", " gives back the command line joined with
   * spaces, unless the last word ends in a comma.
   */
  lemma {:induction false} TagsRejoin(w: seq<string>)
    requires |w| == 0 || !CommaEnded(w[|w| - 1])
    ensures Join(", ", Tags(w)) == Join(" ", w)
    decreases |w|
  {
    var k := FirstCommaEnded(w);
    if k < |w| {
      var rest := w[k + 1..];
      SplitAtFirstComma(w);
      assert rest[|rest| - 1] == w[|w| - 1];
      TagsRejoin(rest);
      RejoinStep(w[..k + 1], rest);
    }
  }

  /**
   * The statement `tmp_attrs[-1][:-1]` has no effect, and none is needed:
   * dropping the comma from the last word before joining gives the same tag
   * as dropping it from the joined text.
   */
  lemma DropCommaCommutesWithJoin(g: seq<string>)
    requires |g| > 0 && CommaEnded(g[|g| - 1])
    ensures Join(" ", g[..|g| - 1] + [DropLast(g[|g| - 1])]) == DropLast(Join(" ", g))
  {
    var last := g[|g| - 1];
    var h := g[..|g| - 1] + [DropLast(last)];
    if |g| > 1 {
      var front := Join(" ", g[..|g| - 1]) + " ";
      assert h[..|h| - 1] == g[..|g| - 1];
      assert Join(" ", h) == front + DropLast(last);
      assert Join(" ", g) == front + last;
      DropLastAppend(front, last);
    }
  }

  /** Python's `(x + y)[:-1]` for a non-empty `y`. */
  lemma DropLastAppend(x: string, y: string)
    requires |y| > 0
    ensures DropLast(x + y) == x + DropLast(y)
  {
    assert (x + y)[..|x + y| - 1] == x + y[..|y| - 1];
  }

  /** `s.rfind(c)`: the last index of `c` in `s`, or -1. */
  function RFind(s: string, c: char): (i: int)
    ensures -1 <= i < |s|
    ensures i >= 0 ==> s[i] == c
    ensures forall j | i < j < |s| :: s[j] != c
  {
    if |s| == 0 then -1 else if s[|s| - 1] == c then |s| - 1 else RFind(s[..|s| - 1], c)
  }

  /** `posixpath.basename`: everything after the last '/'. */
  function Basename(p: string): (b: string)
    ensures |b| <= |p| && b == p[|p| - |b|..]
    ensures forall j | 0 <= j < |b| :: b[j] != '/'
    ensures |b| < |p| ==> p[|p| - |b| - 1] == '/'
  {
    var b := p[RFind(p, '/') + 1..];
    assert forall j | 0 <= j < |b| :: b[j] == p[RFind(p, '/') + 1 + j];
    b
  }

  /**
   * `posixpath.splitext`: split at the last '.' of the last path component,
   * unless everything before that dot in the component is dots (a dot file
   * has no extension).
   */
  function SplitExt(p: string): (parts: (string, string))
    ensures parts.0 + parts.1 == p
    ensures var ext := parts.1;
            ext == "" || (ext[0] == '.' && forall j | 1 <= j < |ext| :: ext[j] != '.' && ext[j] != '/')
  {
    var sepIndex := RFind(p, '/');
    var dotIndex := RFind(p, '.');
    if dotIndex > sepIndex && exists j | sepIndex + 1 <= j < dotIndex :: p[j] != '.' then
      var ext := p[dotIndex..];
      assert forall j | 1 <= j < |ext| :: ext[j] == p[dotIndex + j];
      (p[..dotIndex], ext)
    else (p, "")
  }

  /** `image_title`: the file's base name without its extension. */
  function ImageTitle(filename: string): (t: string)
    ensures var b := Basename(filename);
            |t| <= |b| && t == b[..|t|] && forall j | 0 <= j < |t| :: t[j] != '/'
  {
    var b := Basename(filename);
    var t := SplitExt(b).0;
    assert b == t + SplitExt(b).1;
    assert forall j | 0 <= j < |t| :: t[j] == b[j];
    t
  }

  /** The directory part of a path does not change the title. */
  lemma ImageTitleIgnoresDirectory(dir: string, name: string)
    requires forall j | 0 <= j < |name| :: name[j] != '/'
    ensures ImageTitle(dir + "/" + name) == ImageTitle(name)
  {
    var f := dir + "/" + name;
    assert f[..|f| - |name|] + name == f;
    RFindPast(dir + "/", name, '/');
    RFindPast([], name, '/');
    assert Basename(f) == name;
    assert Basename(name) == name;
  }

  /** Text free of `c` appended after a `c` keeps rfind at that `c`. */
  lemma {:induction false} RFindPast(a: string, b: string, c: char)
    requires forall j | 0 <= j < |b| :: b[j] != c
    ensures RFind(a + b, c) == RFind(a, c)
    decreases |b|
  {
    if |b| > 0 {
      var s := a + b;
      assert s[..|s| - 1] == a + b[..|b| - 1];
      RFindPast(a, b[..|b| - 1], c);
    } else {
      assert a + b == a;
    }
  }

  /** splitext of a component with a dot that has a non-dot before it splits at that dot. */
  lemma SplitExtAtLastDot(p: string, d: nat)
    requires forall j | 0 <= j < |p| :: p[j] != '/'
    requires d < |p| && p[d] == '.' && forall j | d < j < |p| :: p[j] != '.'
    requires exists j | 0 <= j < d :: p[j] != '.'
    ensures SplitExt(p) == (p[..d], p[d..])
  {
    RFindAbsent(p, '/');
    assert RFind(p, '.') == d;
  }

  /** `stem.ext` spelt out, for a stem and extension free of '/', holds no '/'. */
  lemma DottedNameHasNoSlash(stem: string, ext: string)
    requires forall j | 0 <= j < |stem| :: stem[j] != '/'
    requires forall j | 0 <= j < |ext| :: ext[j] != '/'
    ensures forall j | 0 <= j < |stem + "." + ext| :: (stem + "." + ext)[j] != '/'
  {
    var name := stem + "." + ext;
    forall j | 0 <= j < |name| ensures name[j] != '/' {
      if j < |stem| {
        assert name[j] == stem[j];
      } else if j > |stem| {
        assert name[j] == ext[j - |stem| - 1];
      }
    }
  }

  /** The base name `stem.ext` is titled `stem`. */
  lemma TitleOfDottedName(stem: string, ext: string)
    requires forall j | 0 <= j < |stem| :: stem[j] != '/'
    requires exists j | 0 <= j < |stem| :: stem[j] != '.'
    requires forall j | 0 <= j < |ext| :: ext[j] != '.' && ext[j] != '/'
    ensures ImageTitle(stem + "." + ext) == stem
  {
    var name := stem + "." + ext;
    DottedNameHasNoSlash(stem, ext);
    RFindAbsent(name, '/');
    assert Basename(name) == name;
    var i :| 0 <= i < |stem| && stem[i] != '.';
    assert name[i] == stem[i];
    forall j | |stem| < j < |name| ensures name[j] != '.' {
      assert name[j] == ext[j - |stem| - 1];
    }
    SplitExtAtLastDot(name, |stem|);
    assert name[..|stem|] == stem;
  }

  /**
   * A file named `stem.ext` (the stem holding no '/' and not only dots, the
   * extension no '.' or '/') in any directory is titled `stem`.
   */
  lemma ImageTitleOfNamedFile(dir: string, stem: string, ext: string)
    requires forall j | 0 <= j < |stem| :: stem[j] != '/'
    requires exists j | 0 <= j < |stem| :: stem[j] != '.'
    requires forall j | 0 <= j < |ext| :: ext[j] != '.' && ext[j] != '/'
    ensures ImageTitle(dir + "/" + stem + "." + ext) == stem
  {
    DottedNameHasNoSlash(stem, ext);
    assert dir + "/" + stem + "." + ext == dir + "/" + (stem + "." + ext);
    ImageTitleIgnoresDirectory(dir, stem + "." + ext);
    TitleOfDottedName(stem, ext);
  }

  /** A string free of `c` has no `c` to find. */
  lemma RFindAbsent(s: string, c: char)
    requires forall j | 0 <= j < |s| :: s[j] != c
    ensures RFind(s, c) == -1
  {
    RFindPast([], s, c);
    assert [] + s == s;
  }

  /**
   * A base name with no '.', or with only dots before its last '.' (a dot
   * file), is its own title.
   */
  lemma TitleKeepsWholeName(f: string)
    requires forall j | 0 <= j < RFind(Basename(f), '.') :: Basename(f)[j] == '.'
    ensures ImageTitle(f) == Basename(f)
  {
    var b := Basename(f);
    forall j | 0 <= j < |b| ensures b[j] != '/' {
      assert b[j] == f[RFind(f, '/') + 1 + j];
    }
    RFindAbsent(b, '/');
  }
}
