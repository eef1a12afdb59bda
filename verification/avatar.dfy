/** The avatar's fallback: when there is no image (or it failed to load) the component
    shows up to two initials taken from its `alt` text. */
module Avatar {
  import opened Wrappers
  import opened Js
  import opened Seqs

  /** `name.split(' ')`: the pieces between single spaces; repeated spaces give empty pieces. */
  function Split(s: string): (r: seq<string>)
    ensures |r| >= 1
    ensures forall i :: 0 <= i < |r| ==> ' ' !in r[i]
  {
    if s == [] then [""]
    else if s[0] == ' ' then [""] + Split(s[1..])
    else
      var rest := Split(s[1..]);
      [[s[0]] + rest[0]] + rest[1..]
  }

  /** `words.join(sep)`. */
  function Join(ws: seq<string>, sep: string): (r: string)
    requires |ws| >= 1
    decreases |ws|
  {
    if |ws| == 1 then ws[0] else ws[0] + sep + Join(ws[1..], sep)
  }

  lemma {:induction false} JoinConsHead(c: char, ws: seq<string>)
    requires |ws| >= 1
    ensures Join([[c] + ws[0]] + ws[1..], " ") == [c] + Join(ws, " ")
  {
    var vs := [[c] + ws[0]] + ws[1..];
    if |ws| > 1 {
      assert vs[1..] == ws[1..];
    }
  }

  /** Splitting on spaces loses nothing: joining the pieces back with spaces rebuilds the name. */
  lemma {:induction false} JoinSplit(s: string)
    ensures Join(Split(s), " ") == s
  {
    if s == [] {
    } else if s[0] == ' ' {
      JoinSplit(s[1..]);
      var r := [""] + Split(s[1..]);
      assert r[1..] == Split(s[1..]);
      assert s == " " + s[1..];
    } else {
      JoinSplit(s[1..]);
      JoinConsHead(s[0], Split(s[1..]));
      assert s == [s[0]] + s[1..];
    }
  }

  /** `.map(word => word[0]).join('')`: the first character of every non-empty piece
      (`undefined` for an empty piece joins as nothing). */
  function Heads(ws: seq<string>): (r: string)
    ensures |r| <= |ws|
    ensures |r| == |ws| <==> forall i :: 0 <= i < |ws| ==> ws[i] != ""
    ensures |r| == Count(ws, NonEmpty)
    ensures forall i :: 0 <= i < |r| ==> r[i] == Filter(ws, NonEmpty)[i][0]
  {
    if ws == [] then ""
    else
      var rest := Heads(ws[1..]);
      assert Filter(ws, NonEmpty) == (if ws[0] == "" then [] else [ws[0]]) + Filter(ws[1..], NonEmpty);
      (if ws[0] == "" then "" else [ws[0][0]]) + rest
  }

  predicate NonEmpty(w: string) {
    w != ""
  }

  /** `getInitials(name)`: `'?'` for a falsy name, otherwise the word heads upper-cased
      and cut to two characters. A non-string `alt` has no `split` and throws. */
  function GetInitials(name: Value): (r: Result<string>)
    ensures !Truthy(name) ==> r == Success("?")
    ensures name.Str? && name.s != "" ==>
      && r.Success?
      && |r.value| <= 2
      && |r.value| == (if |Heads(Split(name.s))| < 2 then |Heads(Split(name.s))| else 2)
      && forall i :: 0 <= i < |r.value| ==> r.value[i] == UpperChar(Heads(Split(name.s))[i])
    ensures Truthy(name) && !name.Str? ==> r.Failure?
  {
    if !Truthy(name) then Success("?")
    else match name
      case Str(s) => Success(Take(ToUpper(Heads(Split(s))), 2))
      case _ => Failure("TypeError: name.split is not a function")
  }

  /** `alt` defaults to 'Avatar' when the prop is not passed. */
  function AltText(alt: Value): (r: Value)
    ensures alt.Undef? ==> r == Str("Avatar")
    ensures !alt.Undef? ==> r == alt
  {
    if alt.Undef? then Str("Avatar") else alt
  }

  /** What the component renders: the image, or the initials fallback. */
  datatype View = Image(src: Value) | Fallback(initials: Result<string>)

  function Render(src: Value, alt: Value, imageError: bool): (r: View)
    ensures r.Fallback? <==> imageError || !Truthy(src)
    ensures r.Fallback? ==> r.initials == GetInitials(AltText(alt))
  {
    if imageError || !Truthy(src) then Fallback(GetInitials(AltText(alt))) else Image(src)
  }

  /** Without an `alt` the fallback reads 'A'. */
  lemma DefaultAltInitial()
    ensures GetInitials(AltText(Undef)) == Success("A")
  {
    SplitWord("Avatar");
    assert Heads(["Avatar"]) == "A";
    assert ToUpper("A") == "A";
  }

  lemma {:induction false} SplitWord(w: string)
    requires ' ' !in w
    ensures Split(w) == [w]
  {
    if w != [] {
      assert w[0] in w;
      SplitWord(w[1..]);
      assert w == [w[0]] + w[1..];
    }
  }

  /** Splitting at a space splits the two sides apart. */
  lemma {:induction false} SplitConcat(a: string, b: string)
    ensures Split(a + " " + b) == Split(a) + Split(b)
  {
    var t := a + " " + b;
    if a == [] {
      assert t[1..] == b;
    } else {
      assert t[0] == a[0] && t[1..] == a[1..] + " " + b;
      SplitConcat(a[1..], b);
      if a[0] != ' ' {
        var r1 := Split(a[1..]);
        var r2 := Split(b);
        assert (r1 + r2)[0] == r1[0] && (r1 + r2)[1..] == r1[1..] + r2;
      }
    }
  }

  lemma {:induction false} HeadsConcat(x: seq<string>, y: seq<string>)
    ensures Heads(x + y) == Heads(x) + Heads(y)
  {
    if x != [] {
      assert (x + y)[0] == x[0] && (x + y)[1..] == x[1..] + y;
      HeadsConcat(x[1..], y);
    } else {
      assert x + y == y;
    }
  }

  /** Two words give their two capitalised first letters. */
  lemma TwoWordInitials(first: string, second: string)
    requires first != "" && second != ""
    requires ' ' !in first && ' ' !in second
    ensures GetInitials(Str(first + " " + second)) == Success([UpperChar(first[0]), UpperChar(second[0])])
  {
    SplitConcat(first, second);
    SplitWord(first);
    SplitWord(second);
    assert Split(first + " " + second) == [first, second];
    assert Heads([first, second]) == [first[0], second[0]];
    assert ToUpper([first[0], second[0]]) == [UpperChar(first[0]), UpperChar(second[0])];
  }

  /** A run of spaces counts as one: the empty piece it leaves contributes no initial. */
  lemma DoubleSpaceAddsNothing(a: string, b: string)
    ensures GetInitials(Str(a + "  " + b)) == GetInitials(Str(a + " " + b))
  {
    DoubleSpaceSameHeads(a, b);
  }

  lemma DoubleSpaceSameHeads(a: string, b: string)
    ensures Heads(Split(a + "  " + b)) == Heads(Split(a + " " + b))
  {
    assert a + "  " + b == a + " " + (" " + b);
    assert " " + b == "" + " " + b;
    SplitConcat(a, " " + b);
    SplitConcat("", b);
    SplitConcat(a, b);
    HeadsConcat(Split(a), [""] + Split(b));
    HeadsConcat([""], Split(b));
    HeadsConcat(Split(a), Split(b));
  }
}
