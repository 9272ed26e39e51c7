/** The file name a downloaded dashboard is saved under (downloadDashboards and
    downloadAllDashboards build it the same way from the fetched dashboard's title). */
module Filename {
  import opened Text

  /** charToRemove: the characters deleted from a file name, in the order they are deleted. */
  const CharsToRemove: seq<char> := ['(', ')']

  predicate IsParen(c: char) { c == '(' || c == ')' }

  /** What a kept title character becomes: lower-cased, a space turned into '-'. */
  function CleanChar(c: char): char
  {
    if c == ' ' then '-' else LowerChar(c)
  }

  /** Reference definition of the file name, character by character: parentheses
      are dropped, every other character is cleaned and kept in place. */
  function Sanitized(title: string): string
  {
    if title == [] then []
    else (if IsParen(title[0]) then [] else [CleanChar(title[0])]) + Sanitized(title[1..])
  }

  /** A character that can appear in a sanitised name. */
  predicate IsSafe(c: char)
  {
    !IsParen(c) && c != ' ' && !('A' <= c <= 'Z')
  }

  /** The file name as the exporter computes it: lower-case, replace every space
      by '-', then delete each character of CharsToRemove in turn. */
  method SanitiseFilename(title: string) returns (filename: string)
    ensures filename == Sanitized(title)
  {
    filename := Replace(Lower(title), ' ', "-");
    ghost var base := filename;
    StripNothing(base);
    for i := 0 to |CharsToRemove|
      invariant filename == Strip(base, CharsToRemove[..i])
    {
      ReplaceByEmptyStrips(base, CharsToRemove[..i], CharsToRemove[i]);
      assert CharsToRemove[..i + 1] == CharsToRemove[..i] + [CharsToRemove[i]];
      filename := Replace(filename, CharsToRemove[i], "");
    }
    assert CharsToRemove[..|CharsToRemove|] == CharsToRemove;
    PipelineIsSanitized(title);
  }

  /** Lower-casing, replacing spaces and stripping parentheses, in the exporter's
      order, gives the character-by-character reference definition. */
  lemma {:induction false} PipelineIsSanitized(title: string)
    ensures Strip(Replace(Lower(title), ' ', "-"), CharsToRemove) == Sanitized(title)
  {
    if title != [] {
      var l := LowerChar(title[0]);
      var rest := Lower(title[1..]);
      assert Lower(title) == [l] + rest;
      ReplaceAppend([l], rest, ' ', "-");
      assert Replace([l], ' ', "-") == [CleanChar(title[0])] by {
        assert [l][1..] == [];
      }
      StripAppend([CleanChar(title[0])], Replace(rest, ' ', "-"), CharsToRemove);
      assert Strip([CleanChar(title[0])], CharsToRemove)
          == (if IsParen(title[0]) then [] else [CleanChar(title[0])]) by {
        assert [CleanChar(title[0])][1..] == [];
      }
      PipelineIsSanitized(title[1..]);
    }
  }

  /** A sanitised name holds no parenthesis, no space and no ASCII capital. */
  lemma {:induction false} SanitizedIsSafe(title: string)
    ensures forall i :: 0 <= i < |Sanitized(title)| ==> IsSafe(Sanitized(title)[i])
  {
    if title != [] {
      SanitizedIsSafe(title[1..]);
    }
  }

  /** Only parentheses are lost: the name is as long as the title less its parentheses. */
  lemma {:induction false} SanitizedLength(title: string)
    ensures |Sanitized(title)| == |title| - multiset(title)['('] - multiset(title)[')']
  {
    if title != [] {
      assert title == [title[0]] + title[1..];
      assert multiset(title) == multiset{title[0]} + multiset(title[1..]);
      SanitizedLength(title[1..]);
    }
  }

  /** Sanitising works piece by piece, so every kept character keeps its place in order. */
  lemma {:induction false} SanitizedAppend(a: string, b: string)
    ensures Sanitized(a + b) == Sanitized(a) + Sanitized(b)
  {
    if a == [] {
      assert a + b == b;
    } else {
      assert (a + b)[0] == a[0];
      assert (a + b)[1..] == a[1..] + b;
      SanitizedAppend(a[1..], b);
    }
  }

  /** Sanitising is the same as first deleting the parentheses and then lower-casing
      and replacing spaces: the kept characters are exactly the non-parentheses, in order. */
  lemma {:induction false} SanitizedIsStripThenClean(title: string)
    ensures Sanitized(title) == Replace(Lower(Strip(title, CharsToRemove)), ' ', "-")
  {
    if title != [] {
      var kept := if IsParen(title[0]) then [] else [title[0]];
      var rest := Strip(title[1..], CharsToRemove);
      assert Strip(title, CharsToRemove) == kept + rest;
      LowerAppend(kept, rest);
      ReplaceAppend(Lower(kept), Lower(rest), ' ', "-");
      if kept != [] {
        assert Lower(kept) == [LowerChar(title[0])] by {
          assert kept[1..] == [];
        }
        assert Replace([LowerChar(title[0])], ' ', "-") == [CleanChar(title[0])] by {
          assert [LowerChar(title[0])][1..] == [];
        }
      }
      SanitizedIsStripThenClean(title[1..]);
    }
  }

  lemma {:induction false} LowerAppend(a: string, b: string)
    ensures Lower(a + b) == Lower(a) + Lower(b)
  {
    if a == [] {
      assert a + b == b;
    } else {
      assert (a + b)[0] == a[0];
      assert (a + b)[1..] == a[1..] + b;
      LowerAppend(a[1..], b);
    }
  }

  /** A name made only of safe characters is left as it is. */
  lemma {:induction false} SanitizedKeepsSafe(s: string)
    requires forall i :: 0 <= i < |s| ==> IsSafe(s[i])
    ensures Sanitized(s) == s
  {
    if s != [] {
      SanitizedKeepsSafe(s[1..]);
    }
  }

  /** Sanitising an already sanitised name changes nothing. */
  lemma SanitizedIdempotent(title: string)
    ensures Sanitized(Sanitized(title)) == Sanitized(title)
  {
    SanitizedIsSafe(title);
    SanitizedKeepsSafe(Sanitized(title));
  }

  /** A title without parentheses keeps every character in place, each one cleaned. */
  lemma {:induction false} SanitizedWithoutParens(title: string)
    requires forall i :: 0 <= i < |title| ==> !IsParen(title[i])
    ensures |Sanitized(title)| == |title|
    ensures forall i :: 0 <= i < |title| ==> Sanitized(title)[i] == CleanChar(title[i])
  {
    if title != [] {
      SanitizedWithoutParens(title[1..]);
    }
  }

  /** The title "CPU (Node) Usage", given by its parts so that the solver does not
      unfold the whole literal at once, is saved as "cpu-node-usage". */
  lemma SanitizedExample(cpu: string, sp: string, lp: string, node: string, rp: string, usage: string)
    requires cpu == "CPU" && sp == " " && lp == "(" && node == "Node" && rp == ")" && usage == "Usage"
    ensures Sanitized(cpu + sp + lp + node + rp + sp + usage) == "cpu" + "-" + "node" + "-" + "usage"
  {
    SanitizedAppend(cpu + sp + lp + node + rp + sp, usage);
    SanitizedAppend(cpu + sp + lp + node + rp, sp);
    SanitizedAppend(cpu + sp + lp + node, rp);
    SanitizedAppend(cpu + sp + lp, node);
    SanitizedAppend(cpu + sp, lp);
    SanitizedAppend(cpu, sp);
    ExampleWords(cpu, sp, lp, node, rp, usage);
  }

  /** The words of that title, each sanitised on its own. */
  lemma ExampleWords(cpu: string, sp: string, lp: string, node: string, rp: string, usage: string)
    requires cpu == "CPU" && sp == " " && lp == "(" && node == "Node" && rp == ")" && usage == "Usage"
    ensures Sanitized(cpu) == "cpu" && Sanitized(sp) == "-" && Sanitized(node) == "node"
    ensures Sanitized(usage) == "usage" && Sanitized(lp) == [] && Sanitized(rp) == []
  {
    ParenRemoved(lp);
    ParenRemoved(rp);
    WordSanitized(cpu);
    WordSanitized(sp);
    WordSanitized(node);
    WordSanitized(usage);
  }

  /** The words of that title, one literal at a time. */
  lemma WordSanitized(w: string)
    ensures w == "CPU" ==> Sanitized(w) == "cpu"
    ensures w == " " ==> Sanitized(w) == "-"
    ensures w == "Node" ==> Sanitized(w) == "node"
    ensures w == "Usage" ==> Sanitized(w) == "usage"
  {
    if w == "CPU" {
      ExampleWord(w, "cpu");
    } else if w == " " {
      ExampleWord(w, "-");
    } else if w == "Node" {
      ExampleWord(w, "node");
    } else if w == "Usage" {
      ExampleWord(w, "usage");
    }
  }

  /** A lone parenthesis leaves nothing. */
  lemma ParenRemoved(p: string)
    requires p == "(" || p == ")"
    ensures Sanitized(p) == []
  {
    assert p[1..] == [];
  }

  /** A word without parentheses is sanitised character by character. */
  lemma ExampleWord(word: string, expected: string)
    requires '(' !in word && ')' !in word && |word| == |expected|
    requires forall i :: 0 <= i < |word| ==> CleanChar(word[i]) == expected[i]
    ensures Sanitized(word) == expected
  {
    SanitizedWithoutParens(word);
  }

  /** The path a dashboard is written to: the output directory, a slash, the
      sanitised title and the ".json" suffix, in that order. */
  function OutputPath(outputDir: string, title: string): (path: string)
    ensures |path| == |outputDir| + 1 + |Sanitized(title)| + 5
    ensures path[..|outputDir| + 1] == outputDir + "/"
    ensures path[|outputDir| + 1..|path| - 5] == Sanitized(title)
    ensures path[|path| - 5..] == ".json"
  {
    outputDir + "/" + Sanitized(title) + ".json"
  }

  /** Two titles are written to the same file exactly when they sanitise alike, so a
      later download overwrites an earlier one whose title differs only in case,
      parentheses, or a space where the other has '-'. */
  lemma OutputPathSameFile(outputDir: string, a: string, b: string)
    ensures OutputPath(outputDir, a) == OutputPath(outputDir, b) <==> Sanitized(a) == Sanitized(b)
  {
    if OutputPath(outputDir, a) == OutputPath(outputDir, b) {
      var p := OutputPath(outputDir, a);
      assert Sanitized(a) == p[|outputDir| + 1..|p| - 5];
    }
  }

  /** "AB" and "(ab)" are saved to the same file. */
  lemma SameFileExample(outputDir: string, upper: string, lp: string, lower: string, rp: string)
    requires upper == "AB" && lp == "(" && lower == "ab" && rp == ")"
    ensures OutputPath(outputDir, upper) == OutputPath(outputDir, lp + lower + rp)
  {
    SanitizedAppend(lp + lower, rp);
    SanitizedAppend(lp, lower);
    ParenRemoved(lp);
    ParenRemoved(rp);
    AbSanitized(upper, lower);
    OutputPathSameFile(outputDir, upper, lp + lower + rp);
  }

  lemma AbSanitized(upper: string, lower: string)
    requires upper == "AB" && lower == "ab"
    ensures Sanitized(upper) == lower && Sanitized(lower) == lower
  {
    ExampleWord(upper, lower);
    ExampleWord(lower, lower);
  }
}
