/** The name a new queue gets from its target, and exactly when two texts share one. */
module QueueNames {
  import opened Text

  // ---- The name ----

  function SkipUnsafe(s: string): (r: string)
    ensures |r| <= |s|
  {
    if s != "" && !IsAlnum(s[0]) then SkipUnsafe(s[1..]) else s
  }

  /** `re.sub("[^A-Za-z0-9]+", "-", s)` */
  function Collapse(s: string): string
    decreases |s|
  {
    if s == "" then ""
    else if IsAlnum(s[0]) then [s[0]] + Collapse(s[1..])
    else "-" + Collapse(SkipUnsafe(s))
  }

  function TrimDashes(s: string): string {
    TrimDashesRight(TrimDashesLeft(s))
  }

  function TrimDashesLeft(s: string): string {
    if s != "" && s[0] == '-' then TrimDashesLeft(s[1..]) else s
  }

  function TrimDashesRight(s: string): string {
    if s != "" && s[|s| - 1] == '-' then TrimDashesRight(s[..|s| - 1]) else s
  }

  /** `_queue_name_for_target`. */
  function QueueName(target: string): string {
    "limit-" + TrimDashes(Collapse(target))
  }

  // ---- What the name keeps ----

  predicate Unsafe(c: char) { !IsAlnum(c) }

  predicate IsWord(s: string) {
    s != "" && All(s, IsAlnum)
  }

  predicate AreWords(words: seq<string>) {
    forall i :: 0 <= i < |words| ==> IsWord(words[i])
  }

  /** The maximal runs of ASCII letters and digits, in order. */
  function Words(s: string): (words: seq<string>)
    ensures AreWords(words)
    decreases |s|
  {
    var c := Cut(s, IsAlnum);
    if c.head != "" then [c.head] + Words(c.tail)
    else if s == "" then []
    else
      assert c.tail == s && !IsAlnum(s[0]);
      Words(SkipUnsafe(s))
  }

  /** What skipping leaves, and what it skips. */
  lemma {:induction false} SkipParts(s: string) returns (gap: string)
    ensures s == gap + SkipUnsafe(s) && All(gap, Unsafe)
    ensures SkipUnsafe(s) == "" || IsAlnum(SkipUnsafe(s)[0])
  {
    if s != "" && !IsAlnum(s[0]) {
      var more := SkipParts(s[1..]);
      gap := [s[0]] + more;
      Associate([s[0]], more, SkipUnsafe(s[1..]));
      assert s == [s[0]] + s[1..];
    } else {
      gap := "";
    }
  }

  lemma {:induction false} CollapseWord(word: string, tail: string)
    requires All(word, IsAlnum)
    ensures Collapse(word + tail) == word + Collapse(tail)
  {
    if word == "" {
      assert word + tail == tail;
    } else {
      assert (word + tail)[1..] == word[1..] + tail;
      CollapseWord(word[1..], tail);
      Associate([word[0]], word[1..], Collapse(tail));
      assert [word[0]] + word[1..] == word;
    }
  }

  lemma JoinFirst(word: string, words: seq<string>)
    ensures Join([word] + words, "-") == if words == [] then word else word + ("-" + Join(words, "-"))
  {
    assert ([word] + words)[1..] == words;
  }

  predicate IsEdge(s: string) {
    s == "" || s == "-"
  }

  lemma WordsStart(s: string)
    requires s != ""
    ensures var c := Cut(s, IsAlnum);
            if IsAlnum(s[0]) then c.head != "" && |c.tail| < |s| && Words(s) == [c.head] + Words(c.tail)
            else Words(s) == Words(SkipUnsafe(s)) && |SkipUnsafe(s)| < |s|
    ensures var c := Cut(s, IsAlnum);
            s == c.head + c.tail && All(c.head, IsAlnum) && (c.tail != "" ==> !IsAlnum(c.tail[0]))
  {
  }

  lemma NothingCollapses()
    ensures Collapse("") == "" && Words("") == [] && Join([], "-") == ""
  {
  }

  lemma GapCollapses(s: string)
    requires s != "" && !IsAlnum(s[0])
    ensures Collapse(s) == "-" + Collapse(SkipUnsafe(s))
  {
  }

  /** Collapsing keeps the words, one dash between them and at most one at each end. */
  lemma {:induction false} CollapseWords(s: string) returns (lead: string, trail: string)
    ensures Collapse(s) == lead + (Join(Words(s), "-") + trail) && IsEdge(lead) && IsEdge(trail)
    ensures Words(s) == [] ==> trail == ""
    ensures lead == if s != "" && !IsAlnum(s[0]) then "-" else ""
    ensures s == "" ==> Words(s) == []
    decreases |s|
  {
    hide Collapse, Cut, Join, Words, All, SkipUnsafe, IsAlnum;
    if s == "" {
      NothingCollapses();
      lead, trail := "", "";
    } else if IsAlnum(s[0]) {
      WordsStart(s);
      var c := Cut(s, IsAlnum);
      CollapseWord(c.head, c.tail);
      var edge, end := CollapseWords(c.tail);
      lead := "";
      JoinFirst(c.head, Words(c.tail));
      trail := if Words(c.tail) == [] then edge else end;
      WordThen(c.head, Words(c.tail), edge, end, c.tail);
    } else {
      WordsStart(s);
      GapCollapses(s);
      var gap := SkipParts(s);
      var edge, end := CollapseWords(SkipUnsafe(s));
      lead, trail := "-", end;
      assert edge == "";
      assert edge + (Join(Words(s), "-") + end) == Join(Words(s), "-") + end;
    }
  }

  lemma WordThen(word: string, words: seq<string>, edge: string, end: string, tail: string)
    requires words == [] ==> end == ""
    requires tail == "" ==> words == [] && edge == ""
    requires tail != "" ==> edge == "-"
    ensures var joined := if words == [] then word else word + ("-" + Join(words, "-"));
            word + (edge + (Join(words, "-") + end)) == joined + if words == [] then edge else end
  {
    if words == [] {
      assert Join(words, "-") + end == "" && edge + "" == edge;
    } else {
      Associate(edge, Join(words, "-"), end);
      Associate(word, edge + Join(words, "-"), end);
    }
  }

  lemma {:induction false} JoinEnds(words: seq<string>)
    requires words != [] && AreWords(words)
    ensures var s := Join(words, "-");
            s != "" && s[0] != '-' && s[|s| - 1] != '-'
  {
    assert IsWord(words[0]);
    if |words| > 1 {
      assert AreWords(words[1..]);
      JoinEnds(words[1..]);
      var s, rest := Join(words, "-"), Join(words[1..], "-");
      assert s[|s| - 1] == rest[|rest| - 1] && s[0] == words[0][0];
    }
  }

  lemma TrimLeftEdge(lead: string, s: string)
    requires IsEdge(lead) && (s == "" || s[0] != '-')
    ensures TrimDashesLeft(lead + s) == s
  {
    assert TrimDashesLeft(s) == s;
    if lead == "-" {
      assert (lead + s)[1..] == s;
    } else {
      assert lead + s == s;
    }
  }

  lemma TrimRightEdge(s: string, trail: string)
    requires IsEdge(trail) && (s == "" || s[|s| - 1] != '-')
    ensures TrimDashesRight(s + trail) == s
  {
    assert TrimDashesRight(s) == s;
    if trail == "-" {
      assert (s + trail)[..|s|] == s;
    } else {
      assert s + trail == s;
    }
  }

  lemma TrimEdges(lead: string, x: string, trail: string)
    requires IsEdge(lead) && IsEdge(trail) && (x == "" ==> trail == "")
    requires x != "" ==> x[0] != '-' && x[|x| - 1] != '-'
    ensures TrimDashes(lead + (x + trail)) == x
  {
    var s := x + trail;
    assert s != "" ==> s[0] == x[0];
    hide TrimDashesLeft, TrimDashesRight;
    TrimLeftEdge(lead, s);
    TrimRightEdge(x, trail);
  }

  /** The name of any text spells out its words, joined by dashes. */
  lemma NameSpellsWords(t: string)
    ensures QueueName(t) == "limit-" + Join(Words(t), "-")
  {
    var lead, trail := CollapseWords(t);
    if Words(t) != [] {
      JoinEnds(Words(t));
    }
    hide Collapse, Words, Join, AreWords, IsWord;
    EmptyJoin();
    TrimEdges(lead, Join(Words(t), "-"), trail);
  }

  lemma EmptyJoin()
    ensures Join([], "-") == ""
  {
  }

  lemma DashedSplits(words: seq<string>)
    requires words != [] && AreWords(words)
    ensures Split(Join(words, "-"), "-") == words
  {
    forall i | 0 <= i < |words| ensures '-' !in words[i] {
      assert IsWord(words[i]);
    }
    SplitJoin(words, "-");
  }

  lemma JoinTells(a: seq<string>, b: seq<string>)
    requires AreWords(a) && AreWords(b) && Join(a, "-") == Join(b, "-")
    ensures a == b
  {
    hide Split;
    EmptyJoin();
    if a != [] {
      JoinEnds(a);
      DashedSplits(a);
    }
    if b != [] {
      JoinEnds(b);
      DashedSplits(b);
    }
    hide Join;
  }

  /** Two texts get the same name exactly when their words agree, whatever stands
      between them: dots, slashes, a newline or digits beyond ASCII. */
  lemma NamesCollideExactly(t: string, u: string)
    ensures QueueName(t) == QueueName(u) <==> Words(t) == Words(u)
  {
    NameSpellsWords(t);
    NameSpellsWords(u);
    var x, y := Join(Words(t), "-"), Join(Words(u), "-");
    hide QueueName, Words, Join, AreWords;
    if QueueName(t) == QueueName(u) {
      assert ("limit-" + x)[6..] == x && ("limit-" + y)[6..] == y;
      JoinTells(Words(t), Words(u));
    }
  }

  // ---- Words of composed texts ----

  lemma SkipNext(c: char, rest: string)
    requires Unsafe(c)
    ensures Words([c] + rest) == Words(rest)
  {
    var s := [c] + rest;
    assert s[1..] == rest;
    assert SkipUnsafe(s) == SkipUnsafe(rest);
    WordsStart(s);
    if rest != "" {
      WordsStart(rest);
      assert IsAlnum(rest[0]) ==> SkipUnsafe(rest) == rest;
    }
    hide Words;
  }

  lemma {:induction false} WordsSkip(gap: string, rest: string)
    requires All(gap, Unsafe)
    ensures Words(gap + rest) == Words(rest)
  {
    if gap == "" {
      assert gap + rest == rest;
    } else {
      assert gap + rest == [gap[0]] + (gap[1..] + rest);
      SkipNext(gap[0], gap[1..] + rest);
      hide Words;
      WordsSkip(gap[1..], rest);
    }
  }

  /** Words do not run across an unsafe character. */
  lemma {:induction false} WordsAppend(a: string, b: string)
    requires b == "" || !IsAlnum(b[0])
    ensures Words(a + b) == Words(a) + Words(b)
    decreases |a|
  {
    if a == "" {
      assert a + b == b;
    } else if IsAlnum(a[0]) {
      var c := Cut(a, IsAlnum);
      assert c.head != "";
      assert c.tail + b == "" || !IsAlnum((c.tail + b)[0]);
      Associate(c.head, c.tail, b);
      CutAt(c.head, c.tail + b, IsAlnum);
      WordsAppend(c.tail, b);
      Associate([c.head], Words(c.tail), Words(b));
    } else {
      var gap := SkipParts(a);
      var rest := SkipUnsafe(a);
      Associate(gap, rest, b);
      WordsSkip(gap, rest);
      WordsSkip(gap, rest + b);
      WordsAppend(rest, b);
    }
  }

  lemma WordAlone(word: string)
    requires IsWord(word)
    ensures Words(word) == [word]
  {
    CutAt(word, "", IsAlnum);
    assert word + "" == word;
    assert Words("") == [];
  }

  /** Two texts that differ only in unsafe characters have the same words. */
  predicate Alike(a: string, b: string) {
    |a| == |b| && forall i :: 0 <= i < |a| ==> a[i] == b[i] || (Unsafe(a[i]) && Unsafe(b[i]))
  }

  lemma AlikeCut(a: string, b: string)
    requires Alike(a, b) && a != "" && IsAlnum(a[0])
    ensures b != "" && IsAlnum(b[0])
    ensures Cut(a, IsAlnum).head == Cut(b, IsAlnum).head && Alike(Cut(a, IsAlnum).tail, Cut(b, IsAlnum).tail)
  {
    var c := Cut(a, IsAlnum);
    var tail := b[|c.head|..];
    assert c.head == b[..|c.head|] by {
      assert forall i :: 0 <= i < |c.head| ==> a[i] == c.head[i];
    }
    assert c.tail == a[|c.head|..] && b == c.head + tail;
    CutAt(c.head, tail, IsAlnum);
  }

  lemma {:induction false} AlikeWords(a: string, b: string)
    requires Alike(a, b)
    ensures Words(a) == Words(b)
    decreases |a|
  {
    hide Words, Cut, IsAlnum;
    if a == "" {
      assert b == "";
    } else if IsAlnum(a[0]) {
      AlikeCut(a, b);
      WordsStart(a);
      WordsStart(b);
      AlikeWords(Cut(a, IsAlnum).tail, Cut(b, IsAlnum).tail);
    } else {
      assert a == [a[0]] + a[1..] && b == [b[0]] + b[1..];
      assert !IsAlnum(b[0]) && Alike(a[1..], b[1..]);
      WordsSkip([a[0]], a[1..]);
      WordsSkip([b[0]], b[1..]);
      AlikeWords(a[1..], b[1..]);
    }
  }

  // ---- Counting ----

  function Unsafes(s: string): nat {
    if s == "" then 0 else (if Unsafe(s[0]) then 1 else 0) + Unsafes(s[1..])
  }

  function Letters(words: seq<string>): nat {
    if words == [] then 0 else |words[0]| + Letters(words[1..])
  }

  lemma {:induction false} UnsafesAppend(a: string, b: string)
    ensures Unsafes(a + b) == Unsafes(a) + Unsafes(b)
  {
    if a == "" {
      assert a + b == b;
    } else {
      assert (a + b)[1..] == a[1..] + b;
      UnsafesAppend(a[1..], b);
    }
  }

  lemma {:induction false} NoUnsafes(s: string)
    ensures Unsafes(s) == 0 <==> All(s, IsAlnum)
    ensures All(s, Unsafe) ==> Unsafes(s) == |s|
  {
    if s != "" {
      NoUnsafes(s[1..]);
      assert forall i :: 0 < i < |s| ==> s[i] == s[1..][i - 1];
    }
  }

  /** A text is its words' letters and its unsafe characters. */
  lemma {:induction false} LengthByWords(s: string)
    ensures |s| == Letters(Words(s)) + Unsafes(s)
    decreases |s|
  {
    var c := Cut(s, IsAlnum);
    if c.head != "" {
      UnsafesAppend(c.head, c.tail);
      NoUnsafes(c.head);
      LengthByWords(c.tail);
      assert ([c.head] + Words(c.tail))[1..] == Words(c.tail);
    } else if s != "" {
      assert c.tail == s && !IsAlnum(s[0]);
      var gap := SkipParts(s);
      UnsafesAppend(gap, SkipUnsafe(s));
      NoUnsafes(gap);
      LengthByWords(SkipUnsafe(s));
    }
  }
}
