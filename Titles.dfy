/**
 * The title split of `scrape_platform`: cut the title at every `-`, `|`,
 * `–`, `—` or `:`, strip each piece, keep the non-empty ones, and read the
 * first two as the item and the restaurant.
 */
module Titles {
  import opened Text

  /** The characters of the class `[\-\|–—:]`. */
  predicate IsDelim(c: char)
  {
    c == '-' || c == '|' || c == '\U{2013}' || c == '\U{2014}' || c == ':'
  }

  predicate NoDelim(s: string)
  {
    forall i :: 0 <= i < |s| ==> !IsDelim(s[i])
  }

  /** The delimiters of `s`, in the order they occur. */
  function Delims(s: string): (ds: string)
    ensures forall k :: 0 <= k < |ds| ==> IsDelim(ds[k])
  {
    if s == [] then []
    else (if IsDelim(s[0]) then [s[0]] else []) + Delims(s[1..])
  }

  /** The pieces put back together, with `ds[k]` between piece `k` and piece `k + 1`. */
  function Join(pieces: seq<string>, ds: string): string
    requires |pieces| == |ds| + 1
    decreases |ds|
  {
    if |ds| == 0 then pieces[0]
    else pieces[0] + [ds[0]] + Join(pieces[1..], ds[1..])
  }

  lemma JoinHead(c: char, p: string, more: seq<string>, ds: string)
    requires |more| == |ds|
    ensures Join([[c] + p] + more, ds) == [c] + Join([p] + more, ds)
  {
    if |ds| != 0 {
      assert ([[c] + p] + more)[1..] == more == ([p] + more)[1..];
    }
  }

  /**
   * `re.split(r"[\-\|–—:]", s)`: one more piece than there are delimiters,
   * none holding a delimiter, and joined back with the delimiters they were
   * cut at, in order, the pieces give `s` again; a string without
   * delimiters is its own single piece.
   */
  function Split(s: string): (pieces: seq<string>)
    ensures |pieces| == |Delims(s)| + 1
    ensures forall k :: 0 <= k < |pieces| ==> NoDelim(pieces[k])
    ensures Join(pieces, Delims(s)) == s
    ensures NoDelim(s) ==> pieces == [s]
  {
    if s == [] then [[]]
    else
      var rest := Split(s[1..]);
      if IsDelim(s[0]) then
        SplitDelimStep(s, rest);
        [[]] + rest
      else
        SplitCharStep(s, rest);
        [[s[0]] + rest[0]] + rest[1..]
  }

  /** A delimiter at the front starts an empty piece. */
  lemma SplitDelimStep(s: string, rest: seq<string>)
    requires s != [] && IsDelim(s[0])
    requires |rest| == |Delims(s[1..])| + 1 && Join(rest, Delims(s[1..])) == s[1..]
    ensures Delims(s) == [s[0]] + Delims(s[1..])
    ensures Join([[]] + rest, Delims(s)) == s
    ensures !NoDelim(s)
  {
    assert [s[0]] + s[1..] == s;
    assert ([[]] + rest)[1..] == rest;
  }

  /** Any other character at the front joins the first piece. */
  lemma SplitCharStep(s: string, rest: seq<string>)
    requires s != [] && !IsDelim(s[0])
    requires |rest| == |Delims(s[1..])| + 1 && Join(rest, Delims(s[1..])) == s[1..]
    requires forall k :: 0 <= k < |rest| ==> NoDelim(rest[k])
    requires NoDelim(s[1..]) ==> rest == [s[1..]]
    ensures Delims(s) == Delims(s[1..])
    ensures Join([[s[0]] + rest[0]] + rest[1..], Delims(s)) == s
    ensures NoDelim([s[0]] + rest[0])
    ensures NoDelim(s) ==> [[s[0]] + rest[0]] + rest[1..] == [s]
  {
    assert [s[0]] + s[1..] == s;
    assert [rest[0]] + rest[1..] == rest;
    JoinHead(s[0], rest[0], rest[1..], Delims(s[1..]));
    var head := [s[0]] + rest[0];
    forall i | 0 <= i < |head| ensures !IsDelim(head[i]) {
      if i > 0 { assert head[i] == rest[0][i - 1]; }
    }
    if NoDelim(s) {
      forall i | 0 <= i < |s[1..]| ensures !IsDelim(s[1..][i]) {
        assert s[1..][i] == s[i + 1];
      }
    }
  }

  /** `[p.strip() for p in pieces if p.strip()]`. */
  function Kept(pieces: seq<string>): seq<string>
  {
    if pieces == [] then []
    else
      var p := Strip(pieces[0]);
      (if p != [] then [p] else []) + Kept(pieces[1..])
  }

  /** The non-empty stripped pieces of the title. */
  function Parts(title: string): seq<string>
  {
    Kept(Split(title))
  }

  /** A field the split can produce: non-empty, stripped, and free of delimiters. */
  predicate IsClean(s: string)
  {
    s != [] && IsStripped(s) && NoDelim(s)
  }

  /**
   * `(item_name.strip(), restaurant.strip())` as `scrape_platform` chooses
   * them: neither field has surrounding whitespace, and a restaurant is
   * found only together with an item, both clean parts of the title.
   */
  function Decompose(title: string): (r: (string, string))
    ensures IsStripped(r.0) && IsStripped(r.1)
    ensures r.1 != "" ==> IsClean(r.0) && IsClean(r.1)
  {
    var parts := Parts(title);
    PartsClean(title);
    if |parts| >= 2 then
      StripIdempotent(parts[0]);
      StripIdempotent(parts[1]);
      (Strip(parts[0]), Strip(parts[1]))
    else if |parts| == 1 then
      StripIdempotent(parts[0]);
      (Strip(parts[0]), Strip(""))
    else (Strip(title), Strip(""))
  }

  lemma StripNoDelim(s: string)
    requires NoDelim(s)
    ensures NoDelim(Strip(s))
  {
    var p := Strip(s);
    forall i | 0 <= i < |p| ensures !IsDelim(p[i]) {
      assert p[i] in p;
    }
  }

  lemma {:induction false} KeptClean(pieces: seq<string>)
    requires forall k :: 0 <= k < |pieces| ==> NoDelim(pieces[k])
    ensures forall k :: 0 <= k < |Kept(pieces)| ==> IsClean(Kept(pieces)[k])
  {
    if pieces != [] {
      var p := Strip(pieces[0]);
      var tail := Kept(pieces[1..]);
      KeptClean(pieces[1..]);
      if p != [] {
        StripNoDelim(pieces[0]);
        CleanCons(p, tail);
      }
    }
  }

  lemma CleanCons(p: string, tail: seq<string>)
    requires IsClean(p)
    requires forall k :: 0 <= k < |tail| ==> IsClean(tail[k])
    ensures forall k :: 0 <= k < |[p] + tail| ==> IsClean(([p] + tail)[k])
  {
    var kept := [p] + tail;
    forall k | 0 <= k < |kept| ensures IsClean(kept[k]) {
      if k > 0 { assert kept[k] == tail[k - 1]; }
    }
  }

  /** Every part is non-empty, has no leading or trailing whitespace and contains no delimiter. */
  lemma PartsClean(title: string)
    ensures forall k :: 0 <= k < |Parts(title)| ==> IsClean(Parts(title)[k])
  {
    KeptClean(Split(title));
  }

  lemma StripIdempotent(s: string)
    requires IsStripped(s)
    ensures Strip(s) == s
  {
  }

  /**
   * The three cases of the split: with two or more parts the item and the
   * restaurant are the first two, with one part the restaurant is empty,
   * and with none the item is the stripped title; in the first two cases
   * both fields are clean parts of the title.
   */
  lemma DecomposeCases(title: string)
    ensures var parts := Parts(title); var (item, restaurant) := Decompose(title);
      && (|parts| >= 2 ==> item == parts[0] && restaurant == parts[1] && IsClean(item) && IsClean(restaurant))
      && (|parts| == 1 ==> item == parts[0] && restaurant == "" && IsClean(item))
      && (|parts| == 0 ==> item == Strip(title) && restaurant == "")
  {
    var parts := Parts(title);
    PartsClean(title);
    assert Strip("") == "";
    if |parts| >= 1 {
      assert IsClean(parts[0]);
      StripIdempotent(parts[0]);
    }
    if |parts| >= 2 {
      assert IsClean(parts[1]);
      StripIdempotent(parts[1]);
    }
  }

  lemma {:induction false} KeptEmptyIff(pieces: seq<string>)
    ensures Kept(pieces) == [] <==> AllBlank(pieces)
  {
    if pieces != [] {
      KeptEmptyIff(pieces[1..]);
      assert pieces == [pieces[0]] + pieces[1..];
      AllBlankCons(pieces[0], pieces[1..]);
    }
  }

  /** Only delimiters and whitespace. */
  predicate Blank(s: string)
  {
    forall i :: 0 <= i < |s| ==> IsDelim(s[i]) || IsSpace(s[i])
  }

  predicate AllBlank(pieces: seq<string>)
  {
    forall k :: 0 <= k < |pieces| ==> AllSpace(pieces[k])
  }

  lemma BlankCons(s: string)
    requires s != []
    ensures Blank(s) <==> (IsDelim(s[0]) || IsSpace(s[0])) && Blank(s[1..])
  {
    assert forall i :: 1 <= i < |s| ==> s[i] == s[1..][i - 1];
  }

  lemma AllSpaceCons(c: char, t: string)
    ensures AllSpace([c] + t) <==> IsSpace(c) && AllSpace(t)
  {
    var u := [c] + t;
    assert u[0] == c;
    assert forall i :: 0 <= i < |t| ==> t[i] == u[i + 1];
  }

  lemma AllBlankCons(p: string, ps: seq<string>)
    ensures AllBlank([p] + ps) <==> AllSpace(p) && AllBlank(ps)
  {
    var u := [p] + ps;
    assert u[0] == p;
    assert forall k :: 0 <= k < |ps| ==> ps[k] == u[k + 1];
  }

  lemma {:induction false} SplitBlankIff(s: string)
    ensures AllBlank(Split(s)) <==> Blank(s)
  {
    if s != [] {
      SplitBlankIff(s[1..]);
      BlankCons(s);
      var rest := Split(s[1..]);
      if IsDelim(s[0]) {
        assert Split(s) == [[]] + rest;
        AllBlankCons([], rest);
      } else {
        assert Split(s) == [[s[0]] + rest[0]] + rest[1..];
        AllBlankCons([s[0]] + rest[0], rest[1..]);
        AllSpaceCons(s[0], rest[0]);
        assert rest == [rest[0]] + rest[1..];
        AllBlankCons(rest[0], rest[1..]);
      }
    }
  }

  /** The split leaves no part exactly when the title is made of delimiters and whitespace only. */
  lemma PartsEmptyIff(title: string)
    ensures Parts(title) == [] <==> Blank(title)
  {
    assert Parts(title) == Kept(Split(title));
    KeptEmptyIff(Split(title));
    SplitBlankIff(title);
  }

  lemma {:induction false} SplitAfterPiece(a: string, d: char, b: string)
    requires NoDelim(a) && IsDelim(d)
    ensures Split(a + [d] + b) == [a] + Split(b)
  {
    if a == [] {
      assert a + [d] + b == [d] + b;
      assert ([d] + b)[1..] == b;
    } else {
      assert (a + [d] + b)[1..] == a[1..] + [d] + b;
      SplitAfterPiece(a[1..], d, b);
      assert [a[0]] + a[1..] == a;
    }
  }

  lemma LStripSpaces(x: string, w: string)
    requires AllSpace(w) && x != [] && !IsSpace(x[0])
    ensures LStrip(w + x) == x
    decreases |w|
  {
    if w != [] {
      assert (w + x)[1..] == w[1..] + x;
      LStripSpaces(x, w[1..]);
    } else {
      assert w + x == x;
    }
  }

  lemma RStripSpaces(x: string, w: string)
    requires AllSpace(w) && x != [] && !IsSpace(x[|x| - 1])
    ensures RStrip(x + w) == x
    decreases |w|
  {
    if w != [] {
      assert (x + w)[..|x + w| - 1] == x + w[..|w| - 1];
      RStripSpaces(x, w[..|w| - 1]);
    } else {
      assert x + w == x;
    }
  }

  /** Padding a clean field with whitespace on both sides is undone by `strip`. */
  lemma StripPadded(x: string, left: string, right: string)
    requires IsClean(x) && AllSpace(left) && AllSpace(right)
    ensures Strip(left + x + right) == x
  {
    assert left + x + right == left + (x + right);
    LStripSpaces(x + right, left);
    RStripSpaces(x, right);
  }

  lemma PadNoDelim(left: string, x: string, right: string)
    requires NoDelim(left) && NoDelim(x) && NoDelim(right)
    ensures NoDelim(left + x + right)
  {
    var u := left + x + right;
    forall i | 0 <= i < |u| ensures !IsDelim(u[i]) {
      if i < |left| {
        assert u[i] == left[i];
      } else if i < |left| + |x| {
        assert u[i] == x[i - |left|];
      } else {
        assert u[i] == right[i - |left| - |x|];
      }
    }
  }

  /** Where the two ` - ` separators of an "Item - Restaurant - Platform" title fall. */
  lemma TitleShape(item: string, restaurant: string, platform: string)
    ensures item + " - " + restaurant + " - " + platform
      == ("" + item + " ") + ['-'] + ((" " + restaurant + " ") + ['-'] + (" " + platform))
  {
  }

  lemma SplitTitle(item: string, restaurant: string, platform: string)
    requires IsClean(item) && IsClean(restaurant)
    ensures Split(item + " - " + restaurant + " - " + platform)
      == [item + " ", " " + restaurant + " "] + Split(" " + platform)
  {
    var p1 := "" + item + " ";
    var p2 := " " + restaurant + " ";
    var tail := " " + platform;
    TitleShape(item, restaurant, platform);
    PadNoDelim("", item, " ");
    PadNoDelim(" ", restaurant, " ");
    SplitAfterPiece(p1, '-', p2 + ['-'] + tail);
    SplitAfterPiece(p2, '-', tail);
    assert p1 == item + " ";
    ConsTwo(p1, p2, Split(tail));
  }

  lemma KeptHead(p: string, rest: seq<string>)
    requires Strip(p) != []
    ensures Kept([p] + rest) == [Strip(p)] + Kept(rest)
  {
    assert ([p] + rest)[1..] == rest;
  }

  lemma StripFirstPiece(item: string)
    requires IsClean(item)
    ensures Strip(item + " ") == item
  {
    StripPadded(item, "", " ");
    assert "" + item + " " == item + " ";
  }

  lemma StripMiddlePiece(restaurant: string)
    requires IsClean(restaurant)
    ensures Strip(" " + restaurant + " ") == restaurant
  {
    StripPadded(restaurant, " ", " ");
  }

  /** Sequence regrouping, kept apart so the solver sees the fact alone. */
  lemma ConsTwo<T>(a: T, b: T, k: seq<T>)
    ensures [a] + ([b] + k) == [a, b] + k
  {
  }

  lemma KeptTwo(p1: string, p2: string, rest: seq<string>)
    requires Strip(p1) != [] && Strip(p2) != []
    ensures Kept([p1, p2] + rest) == [Strip(p1), Strip(p2)] + Kept(rest)
  {
    ConsTwo(p1, p2, rest);
    KeptHead(p1, [p2] + rest);
    KeptHead(p2, rest);
    ConsTwo(Strip(p1), Strip(p2), Kept(rest));
  }

  lemma PartsOfTitle(item: string, restaurant: string, platform: string)
    requires IsClean(item) && IsClean(restaurant)
    ensures Parts(item + " - " + restaurant + " - " + platform)
      == [item, restaurant] + Kept(Split(" " + platform))
  {
    SplitTitle(item, restaurant, platform);
    StripFirstPiece(item);
    StripMiddlePiece(restaurant);
    KeptTwo(item + " ", " " + restaurant + " ", Split(" " + platform));
  }

  /**
   * A title in the usual "Item - Restaurant - Platform" shape decomposes
   * into exactly the item and the restaurant, whatever follows the second
   * delimiter.
   */
  lemma DecomposeRoundTrip(item: string, restaurant: string, platform: string)
    requires IsClean(item) && IsClean(restaurant)
    ensures Decompose(item + " - " + restaurant + " - " + platform) == (item, restaurant)
  {
    var title := item + " - " + restaurant + " - " + platform;
    PartsOfTitle(item, restaurant, platform);
    var parts := Parts(title);
    assert |parts| >= 2 && parts[0] == item && parts[1] == restaurant;
    StripIdempotent(item);
    StripIdempotent(restaurant);
  }
}
