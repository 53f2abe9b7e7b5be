/** The journal's redaction: dropping every dictionary key that looks like a secret,
    at any depth. */
module Redaction {
  import opened Text
  import opened Formatting

  // ---- Sensitive keys ----

  /** Case folding of the pattern's letters under `re.IGNORECASE`: the ASCII capitals
      and the four other letters that fold to one of them. */
  function Fold(c: char): char {
    if 'A' <= c <= 'Z' then c - 'A' + 'a'
    else if c == '\U{0130}' || c == '\U{0131}' then 'i'
    else if c == '\U{017F}' then 's'
    else if c == '\U{212A}' then 'k'
    else c
  }

  function Folded(s: string): string {
    seq(|s|, i requires 0 <= i < |s| => Fold(s[i]))
  }

  const WORDS := ["password", "secret", "token", "credential", "passphrase", "psk", "private"]

  /** `pre.?shared`, where the dot is any character but a newline. */
  predicate HasPreShared(s: string) {
    exists i :: 0 <= i <= |s| && "pre" <= s[i..]
                && ("shared" <= s[i + 3..] || (i + 4 <= |s| && s[i + 3] != '\n' && "shared" <= s[i + 4..]))
  }

  predicate IsSensitive(key: string) {
    var f := Folded(key);
    (exists i :: 0 <= i < |WORDS| && Contains(f, WORDS[i])) || HasPreShared(f)
  }

  // ---- Values ----

  /** What a journal summary is made of; keys as `str(key)`, in order. */
  datatype Value =
    | Null
    | Flag(b: bool)
    | Number(n: int)
    | Text(s: string)
    | List(items: seq<Value>)
    | Tuple(parts: seq<Value>)
    | Dict(entries: seq<Entry>)

  datatype Entry = Entry(key: string, value: Value)

  function Kept(entries: seq<Entry>): seq<Entry> {
    if entries == [] then []
    else (if IsSensitive(entries[0].key) then [] else [entries[0]]) + Kept(entries[1..])
  }

  /** `_sanitize`. */
  function Sanitize(v: Value): Value {
    match v
    case List(items) => List(seq(|items|, i requires 0 <= i < |items| => Sanitize(items[i])))
    case Tuple(parts) => List(seq(|parts|, i requires 0 <= i < |parts| => Sanitize(parts[i])))
    case Dict(entries) =>
      Dict(Kept(seq(|entries|, i requires 0 <= i < |entries| => Entry(entries[i].key, Sanitize(entries[i].value)))))
    case _ => v
  }

  // ---- Nothing sensitive stays ----

  /** No sensitive key in any dictionary at any depth, and only plain lists. */
  predicate Clean(v: Value) {
    match v
    case List(items) => forall i :: 0 <= i < |items| ==> Clean(items[i])
    case Tuple(_) => false
    case Dict(entries) => forall i :: 0 <= i < |entries| ==> !IsSensitive(entries[i].key) && Clean(entries[i].value)
    case _ => true
  }

  lemma {:induction false} KeptAreSome(entries: seq<Entry>)
    ensures forall e :: e in Kept(entries) <==> e in entries && !IsSensitive(e.key)
  {
    hide IsSensitive;
    if entries != [] {
      KeptAreSome(entries[1..]);
      assert entries == [entries[0]] + entries[1..];
    }
  }

  lemma {:induction false} KeptAll(entries: seq<Entry>)
    requires forall i :: 0 <= i < |entries| ==> !IsSensitive(entries[i].key)
    ensures Kept(entries) == entries
  {
    hide IsSensitive;
    if entries != [] {
      KeptAll(entries[1..]);
      assert entries == [entries[0]] + entries[1..];
    }
  }

  lemma {:induction false} SanitizedIsClean(v: Value)
    ensures Clean(Sanitize(v))
  {
    hide IsSensitive;
    match v {
      case List(items) =>
        forall i | 0 <= i < |items| ensures Clean(Sanitize(items[i])) { SanitizedIsClean(items[i]); }
      case Tuple(parts) =>
        forall i | 0 <= i < |parts| ensures Clean(Sanitize(parts[i])) { SanitizedIsClean(parts[i]); }
      case Dict(entries) =>
        forall i | 0 <= i < |entries| ensures Clean(Sanitize(entries[i].value)) { SanitizedIsClean(entries[i].value); }
        var mapped := seq(|entries|, i requires 0 <= i < |entries| =>
                          Entry(entries[i].key, Sanitize(entries[i].value)));
        KeptAreSome(mapped);
        var kept := Kept(mapped);
        forall i | 0 <= i < |kept| ensures !IsSensitive(kept[i].key) && Clean(kept[i].value) {
          assert kept[i] in mapped;
        }
      case _ =>
    }
  }

  lemma {:induction false} CleanIsUnchanged(v: Value)
    requires Clean(v)
    ensures Sanitize(v) == v
  {
    hide IsSensitive;
    match v {
      case List(items) =>
        forall i | 0 <= i < |items| ensures Sanitize(items[i]) == items[i] { CleanIsUnchanged(items[i]); }
        assert seq(|items|, i requires 0 <= i < |items| => Sanitize(items[i])) == items;
      case Dict(entries) =>
        forall i | 0 <= i < |entries| ensures Sanitize(entries[i].value) == entries[i].value {
          CleanIsUnchanged(entries[i].value);
        }
        assert seq(|entries|, i requires 0 <= i < |entries| =>
                   Entry(entries[i].key, Sanitize(entries[i].value))) == entries;
        KeptAll(entries);
      case _ =>
    }
  }

  /** Redaction leaves no sensitive key at any depth, changes nothing that is already
      clean, and leaves a value as it was only if that was clean. */
  lemma RedactionIsExact(v: Value)
    ensures Clean(Sanitize(v)) && Sanitize(Sanitize(v)) == Sanitize(v)
    ensures Sanitize(v) == v <==> Clean(v)
  {
    SanitizedIsClean(v);
    CleanIsUnchanged(Sanitize(v));
    if Clean(v) {
      CleanIsUnchanged(v);
    }
  }

  // ---- Everything else stays ----

  datatype Step = Key(key: string) | Index(index: nat)

  function FirstKey(entries: seq<Entry>, key: string): Option<Value> {
    if entries == [] then None
    else if entries[0].key == key then Some(entries[0].value)
    else FirstKey(entries[1..], key)
  }

  function At(v: Value, step: Step): Option<Value> {
    match step
    case Key(key) => if v.Dict? then FirstKey(v.entries, key) else None
    case Index(i) =>
      if v.List? && i < |v.items| then Some(v.items[i])
      else if v.Tuple? && i < |v.parts| then Some(v.parts[i])
      else None
  }

  function Lookup(v: Value, path: seq<Step>): Option<Value>
    decreases |path|
  {
    if path == [] then Some(v)
    else
      var next := At(v, path[0]);
      if next.None? then None else Lookup(next.value, path[1..])
  }

  /** The path goes through sensitive keys nowhere. */
  predicate Plain(path: seq<Step>) {
    forall i :: 0 <= i < |path| ==> (path[i].Key? ==> !IsSensitive(path[i].key))
  }

  function Sanitized(v: Option<Value>): Option<Value> {
    if v.Some? then Some(Sanitize(v.value)) else None
  }

  lemma {:induction false} FirstKeyKept(entries: seq<Entry>, mapped: seq<Entry>, key: string)
    requires |mapped| == |entries|
    requires forall i :: 0 <= i < |entries| ==> mapped[i] == Entry(entries[i].key, Sanitize(entries[i].value))
    ensures FirstKey(Kept(mapped), key) == if IsSensitive(key) then None else Sanitized(FirstKey(entries, key))
  {
    hide IsSensitive, Sanitize;
    if entries != [] {
      FirstKeyKept(entries[1..], mapped[1..], key);
      var rest := Kept(mapped[1..]);
      assert ([mapped[0]] + rest)[1..] == rest;
      assert [] + rest == rest;
    }
  }

  lemma SanitizedStep(v: Value, step: Step)
    ensures At(Sanitize(v), step) ==
            if step.Key? && IsSensitive(step.key) then None else Sanitized(At(v, step))
  {
    hide IsSensitive;
    if v.Dict? && step.Key? {
      var entries := v.entries;
      var mapped := seq(|entries|, i requires 0 <= i < |entries| => Entry(entries[i].key, Sanitize(entries[i].value)));
      FirstKeyKept(entries, mapped, step.key);
    }
  }

  /** A path through no sensitive key leads to the same value, redacted; a path
      through one leads nowhere. */
  lemma {:induction false} PathsAreKept(v: Value, path: seq<Step>)
    ensures Lookup(Sanitize(v), path) == if Plain(path) then Sanitized(Lookup(v, path)) else None
    decreases |path|
  {
    hide IsSensitive, Sanitize;
    if path != [] {
      SanitizedStep(v, path[0]);
      PlainStep(path);
      var next := At(v, path[0]);
      if next.Some? {
        PathsAreKept(next.value, path[1..]);
      }
    }
  }

  lemma PlainStep(path: seq<Step>)
    requires path != []
    ensures Plain(path) <==> (path[0].Key? ==> !IsSensitive(path[0].key)) && Plain(path[1..])
  {
    hide IsSensitive;
    assert forall i :: 0 < i < |path| ==> path[i] == path[1..][i - 1];
  }

  // ---- The keys of real rows ----

  lemma {:induction false} ContainsAt(s: string, word: string, i: nat)
    requires i <= |s| && word <= s[i..]
    ensures Contains(s, word)
  {
    if i > 0 {
      assert s[1..][i - 1..] == s[i..];
      ContainsAt(s[1..], word, i - 1);
    }
  }

  lemma FoldedConcat(a: string, b: string)
    ensures Folded(a + b) == Folded(a) + Folded(b)
  {
  }

  /** Any key with one of the words in it is caught, in any letter case and whatever
      surrounds it. */
  lemma WordIsCaught(before: string, word: string, after: string, k: nat)
    requires k < |WORDS| && Folded(word) == WORDS[k]
    ensures IsSensitive(before + (word + after))
  {
    var key := before + (word + after);
    FoldedConcat(before, word + after);
    FoldedConcat(word, after);
    var f := Folded(key);
    assert f[|before|..] == Folded(word) + Folded(after);
    ContainsAt(f, WORDS[k], |before|);
  }

  /** So is every spelling of a pre-shared key with at most one character between its
      two halves, a newline excepted. */
  lemma PreSharedIsCaught(before: string, gap: string, after: string)
    requires gap == "" || (|gap| == 1 && gap != "\n")
    ensures IsSensitive(before + ("pre" + (gap + ("shared" + after))))
  {
    var tail := "shared" + after;
    var key := before + ("pre" + (gap + tail));
    FoldedConcat(before, "pre" + (gap + tail));
    FoldedConcat("pre", gap + tail);
    FoldedConcat(gap, tail);
    FoldedConcat("shared", after);
    assert Folded("pre") == "pre" && Folded("shared") == "shared";
    var f, i := Folded(key), |before|;
    assert f[i..] == "pre" + (Folded(gap) + ("shared" + Folded(after)));
    hide Folded;
    assert f[i + 3..] == Folded(gap) + ("shared" + Folded(after));
    FoldedGap(gap);
    if gap == "" {
      assert f[i + 3..] == "shared" + Folded(after);
    } else {
      assert f[i + 3] == Folded(gap)[0] && f[i + 4..] == "shared" + Folded(after);
    }
    assert HasPreShared(f);
  }

  lemma FoldedGap(gap: string)
    ensures |Folded(gap)| == |gap|
    ensures |gap| == 1 && gap != "\n" ==> Folded(gap)[0] != '\n'
  {
  }

  lemma PlainWord(word: string)
    requires forall i :: 0 <= i < |word| ==> 'a' <= word[i] <= 'z'
    ensures Folded(word) == word
  {
  }

  lemma EachWordIsCaught(k: nat)
    requires k < |WORDS|
    ensures IsSensitive(WORDS[k])
  {
    PlainWord(WORDS[k]);
    assert "" + (WORDS[k] + "") == WORDS[k];
    hide IsSensitive;
    WordIsCaught("", WORDS[k], "", k);
  }

  /** Every listed word on its own, and the key fields of the rows this package
      handles. */
  lemma KeyFieldsAreCaught()
    ensures forall k :: 0 <= k < |WORDS| ==> IsSensitive(WORDS[k])
    ensures IsSensitive("private-key") && IsSensitive("preshared-key") && IsSensitive("wpa2-pre-shared-key")
  {
    hide IsSensitive;
    forall k | 0 <= k < |WORDS| ensures IsSensitive(WORDS[k]) {
      EachWordIsCaught(k);
    }
    PlainWord("private");
    WordIsCaught("", "private", "-key", 6);
    PreSharedIsCaught("", "", "-key");
    PreSharedIsCaught("wpa2-", "-", "-key");
    assert "" + ("private" + "-key") == "private-key";
    assert "" + ("pre" + ("" + ("shared" + "-key"))) == "preshared-key";
    assert "wpa2-" + ("pre" + ("-" + ("shared" + "-key"))) == "wpa2-pre-shared-key";
  }
}
