/** `_wrap`: words are put on lines greedily. A value comes as its words, none of them empty. */
module WordWrap {

  type Words = seq<string>

  /** The words of one line, separated by single spaces. */
  function Text(line: Words): string {
    if line == [] then ""
    else if |line| == 1 then line[0]
    else Text(line[..|line| - 1]) + " " + line[|line| - 1]
  }

  function Texts(lines: seq<Words>): (r: seq<string>)
    ensures |r| == |lines| && forall i :: 0 <= i < |r| ==> r[i] == Text(lines[i])
  {
    if lines == [] then [] else Texts(lines[..|lines| - 1]) + [Text(lines[|lines| - 1])]
  }

  /** A line may be too wide only if it is one word. */
  predicate Fits(line: Words, width: int) {
    line != [] && (|line| > 1 ==> |Text(line)| <= width)
  }

  function Flat(lines: seq<Words>): Words {
    if lines == [] then [] else Flat(lines[..|lines| - 1]) + lines[|lines| - 1]
  }

  /** The lines hold the words, all of them in order, and each line fits. */
  ghost predicate IsLayout(words: Words, lines: seq<Words>, width: int) {
    Flat(lines) == words && forall i :: 0 <= i < |lines| ==> Fits(lines[i], width)
  }

  function Last<T>(s: seq<T>): T
    requires s != []
  {
    s[|s| - 1]
  }

  function Front<T>(s: seq<T>): seq<T>
    requires s != []
  {
    s[..|s| - 1]
  }

  /** Where the next word goes. */
  function Place(lines: seq<Words>, word: string, width: int): seq<Words> {
    if lines == [] || |Text(Last(lines) + [word])| > width then lines + [[word]]
    else Front(lines) + [Last(lines) + [word]]
  }

  function Greedy(words: Words, width: int): seq<Words> {
    if words == [] then [] else Place(Greedy(Front(words), width), Last(words), width)
  }

  lemma TextSnoc(line: Words, word: string)
    ensures Text(line + [word]) == if line == [] then word else Text(line) + " " + word
  {
    assert (line + [word])[..|line|] == line;
  }

  lemma FlatSnoc(lines: seq<Words>, line: Words)
    ensures Flat(lines + [line]) == Flat(lines) + line
  {
    assert (lines + [line])[..|lines|] == lines;
  }

  lemma FlatLast(lines: seq<Words>)
    requires lines != []
    ensures lines == Front(lines) + [Last(lines)] && Flat(lines) == Flat(Front(lines)) + Last(lines)
  {
  }

  lemma PlaceKeeps(words: Words, lines: seq<Words>, word: string, width: int)
    requires IsLayout(words, lines, width)
    ensures IsLayout(words + [word], Place(lines, word, width), width)
  {
    if lines == [] || |Text(Last(lines) + [word])| > width {
      FlatSnoc(lines, [word]);
    } else {
      FlatLast(lines);
      FlatSnoc(Front(lines), Last(lines) + [word]);
      assert Flat(Front(lines)) + (Last(lines) + [word]) == Flat(lines) + [word];
    }
  }

  /** The greedy lines are a layout: no word is lost, and only a single word is too wide. */
  lemma {:induction false} GreedyLayout(words: Words, width: int)
    ensures IsLayout(words, Greedy(words, width), width)
  {
    if words != [] {
      GreedyLayout(Front(words), width);
      PlaceKeeps(Front(words), Greedy(Front(words), width), Last(words), width);
      assert words == Front(words) + [Last(words)];
    }
  }

  // ----- no layout takes fewer lines -----

  /** b ends in a. */
  predicate EndsIn(b: Words, a: Words) {
    |a| <= |b| && b[|b| - |a|..] == a
  }

  lemma {:induction false} NoWider(a: Words, b: Words)
    requires EndsIn(b, a)
    ensures |Text(a)| <= |Text(b)|
  {
    if |a| > 1 {
      assert EndsIn(Front(b), Front(a)) by {
        assert Front(b)[|b| - |a|..] == Front(a);
      }
      NoWider(Front(a), Front(b));
    }
  }

  /** The lines use fewer lines than the others, or as many with no more words on the last. */
  ghost predicate Ahead(lines: seq<Words>, others: seq<Words>) {
    |lines| < |others|
    || (|lines| == |others| && (lines != [] ==> EndsIn(Last(others), Last(lines))))
  }

  /** A layout without its last word. */
  function Unplaced(lines: seq<Words>): seq<Words>
    requires lines != [] && Last(lines) != []
  {
    if |Last(lines)| == 1 then Front(lines) else Front(lines) + [Front(Last(lines))]
  }

  lemma UnplacedLayout(words: Words, lines: seq<Words>, width: int)
    requires words != [] && IsLayout(words, lines, width)
    ensures lines != [] && Last(lines) != [] && Last(Last(lines)) == Last(words)
    ensures IsLayout(Front(words), Unplaced(lines), width)
  {
    FlatLast(lines);
    var line := Last(lines);
    assert line == Front(line) + [Last(line)];
    assert words == Flat(Front(lines)) + Front(line) + [Last(line)];
    if |line| > 1 {
      FlatSnoc(Front(lines), Front(line));
      TextSnoc(Front(line), Last(line));
    } else {
      assert Front(line) == [];
    }
  }

  lemma PlaceAhead(lines: seq<Words>, others: seq<Words>, word: string, width: int)
    requires others != [] && Fits(Last(others), width) && Last(Last(others)) == word
    requires Ahead(lines, Unplaced(others))
    ensures Ahead(Place(lines, word, width), others)
  {
    var line := Last(others);
    assert line == Front(line) + [word];
    if |lines| == |others| {
      var mine := Last(lines);
      assert EndsIn(line, mine + [word]) by {
        assert line[|line| - |mine| - 1..] == Front(line)[|line| - 1 - |mine|..] + [word];
      }
      NoWider(mine + [word], line);
    } else {
      assert line[|line| - 1..] == [word];
    }
  }

  lemma {:induction false} GreedyAhead(words: Words, others: seq<Words>, width: int)
    requires IsLayout(words, others, width)
    ensures Ahead(Greedy(words, width), others)
  {
    if words == [] {
      if others != [] { FlatLast(others); }
    } else {
      UnplacedLayout(words, others, width);
      GreedyAhead(Front(words), Unplaced(others), width);
      PlaceAhead(Greedy(Front(words), width), others, Last(words), width);
    }
  }

  /** No way of putting the words on lines that fit takes fewer lines. */
  lemma GreedyFewest(words: Words, others: seq<Words>, width: int)
    requires IsLayout(words, others, width)
    ensures |Greedy(words, width)| <= |others|
  {
    GreedyAhead(words, others, width);
  }

  // ----- the loop -----

  method Wrap(words: Words, width: int) returns (lines: seq<string>)
    requires forall w :: w in words ==> w != ""
    ensures lines == if words == [] then [""] else Texts(Greedy(words, width))
  {
    lines := [];
    var current := "";
    for i := 0 to |words|
      invariant Done(words[..i], width, lines, current)
    {
      var word := words[i];
      var candidate := if current == "" then word else current + " " + word;
      assert words[..i + 1] == words[..i] + [word] && word in words;
      DoneNext(words[..i], width, lines, current, word);
      if |candidate| > width && current != "" {
        lines := lines + [current];
        current := word;
      } else {
        current := candidate;
      }
    }
    assert words[..|words|] == words;
    if current != "" {
      lines := lines + [current];
    }
    if lines == [] {
      lines := [""];
    }
  }

  /** The finished lines and the current one show the greedy layout so far. */
  ghost predicate Done(words: Words, width: int, lines: seq<string>, current: string) {
    var g := Greedy(words, width);
    (words == [] <==> current == "")
    && if words == [] then lines == [] else g != [] && Last(g) != [] && Texts(g) == lines + [current]
  }

  lemma DoneNext(words: Words, width: int, lines: seq<string>, current: string, word: string)
    requires Done(words, width, lines, current) && word != ""
    ensures var candidate := if current == "" then word else current + " " + word;
            if |candidate| > width && current != "" then Done(words + [word], width, lines + [current], word)
            else Done(words + [word], width, lines, candidate)
  {
    var g := Greedy(words, width);
    assert Front(words + [word]) == words;
    assert Greedy(words + [word], width) == Place(g, word, width);
    if words != [] {
      TextSnoc(Last(g), word);
      TextsPlaced(g, word, width);
    }
  }

  lemma TextsPlaced(lines: seq<Words>, word: string, width: int)
    requires lines != []
    ensures Texts(lines) == Texts(Front(lines)) + [Text(Last(lines))]
    ensures Texts(lines + [[word]]) == Texts(lines) + [word]
    ensures Texts(Front(lines) + [Last(lines) + [word]]) == Texts(Front(lines)) + [Text(Last(lines) + [word])]
  {
    TextsSnoc(lines, [word]);
    TextsSnoc(Front(lines), Last(lines) + [word]);
  }

  lemma TextsSnoc(lines: seq<Words>, line: Words)
    ensures Texts(lines + [line]) == Texts(lines) + [Text(line)]
  {
  }
}
