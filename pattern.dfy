/** The fragment of Python's `re` that the keggtools validators use: literal
    text, a character class repeated exactly n times (`[a-z]{3}`), alternation
    and concatenation, all anchored at the start as `re.match` is. */
module Pattern {
  import opened Strings

  datatype CharClass =
    | Lower   // [a-z]
    | Digit   // [0-9]
    | Hex     // [a-fA-F0-9]

  predicate InClass(c: CharClass, ch: char)
  {
    match c
    case Lower => 'a' <= ch <= 'z'
    case Digit => IsDigit(ch)
    case Hex => IsHexDigit(ch)
  }

  predicate AllIn(c: CharClass, s: string)
  {
    forall i :: 0 <= i < |s| ==> InClass(c, s[i])
  }

  datatype Re =
    | Lit(text: string)
    | Repeat(cls: CharClass, count: nat)
    | Alt(left: Re, right: Re)
    | Cat(first: Re, second: Re)

  /** Every position at which a match of `r` that starts at `i` can end
      (backtracking explores all of them). */
  function Ends(r: Re, s: string, i: nat): (e: set<nat>)
    requires i <= |s|
    ensures forall j :: j in e ==> i <= j <= |s|
  {
    match r
    case Lit(t) => if i + |t| <= |s| && s[i..i + |t|] == t then {i + |t|} else {}
    case Repeat(c, n) => if i + n <= |s| && AllIn(c, s[i..i + n]) then {i + n} else {}
    case Alt(a, b) => Ends(a, s, i) + Ends(b, s, i)
    case Cat(a, b) => set j, k | j in Ends(a, s, i) && k in Ends(b, s, j) :: k
  }

  /** The pattern matches all of `s`. */
  predicate FullMatch(r: Re, s: string)
  {
    |s| in Ends(r, s, 0)
  }

  /** `re.match("^" + r + "$", s) is not None`: Python's `$` matches at the
      very end and also just before a newline that ends the string. */
  predicate PyMatch(r: Re, s: string)
  {
    || |s| in Ends(r, s, 0)
    || (|s| > 0 && s[|s| - 1] == '\n' && |s| - 1 in Ends(r, s, 0))
  }

  lemma LitEnds(t: string, s: string, i: nat, e: nat)
    requires i <= e <= |s|
    ensures e in Ends(Lit(t), s, i) <==> s[i..e] == t
  {
    if s[i..e] == t {
      assert i + |t| == e;
    }
  }

  lemma RepeatEnds(c: CharClass, n: nat, s: string, i: nat, e: nat)
    requires i <= e <= |s|
    ensures e in Ends(Repeat(c, n), s, i) <==> e - i == n && AllIn(c, s[i..e])
  {
  }

  /** A concatenation ends at `e` exactly when its first part ends at some `j`
      from which the second part ends at `e`. */
  lemma CatEnds(a: Re, b: Re, s: string, i: nat, e: nat)
    requires i <= e <= |s|
    ensures e in Ends(Cat(a, b), s, i) <==> exists j :: i <= j <= e && j in Ends(a, s, i) && e in Ends(b, s, j)
  {
    if e in Ends(Cat(a, b), s, i) {
      var j :| j in Ends(a, s, i) && e in Ends(b, s, j);
      assert i <= j <= e && j in Ends(a, s, i) && e in Ends(b, s, j);
    }
  }

  /** The split point of a concatenation that ends at `e`. */
  lemma CatSplit(a: Re, b: Re, s: string, i: nat, e: nat) returns (j: nat)
    requires i <= e <= |s|
    requires e in Ends(Cat(a, b), s, i)
    ensures i <= j <= e && j in Ends(a, s, i) && e in Ends(b, s, j)
  {
    j :| j in Ends(a, s, i) && e in Ends(b, s, j);
  }
}
