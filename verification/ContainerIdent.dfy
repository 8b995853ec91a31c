/** The identity of the reference container, and its printed form `namespace/pod/container`. */
module ContainerIdent {
  import opened Wrappers

  datatype ContainerIdent = ContainerIdent(namespace: string, podName: string, containerName: string)

  datatype Result<T> = Ok(value: T) | Malformed

  /** A nil identity prints as nothing. */
  function Print(ci: Option<ContainerIdent>): string {
    if ci.None? then "" else ci.value.namespace + "/" + ci.value.podName + "/" + ci.value.containerName
  }

  /** A slash starts a new piece, any other character goes to the last one. */
  function Extend(items: seq<string>, c: char): (r: seq<string>)
    requires items != []
    ensures r != []
  {
    if c == '/' then items + [""] else items[|items| - 1 := items[|items| - 1] + [c]]
  }

  /** The pieces between slashes; always at least one. */
  function Split(s: string): (items: seq<string>)
    ensures items != []
  {
    if s == [] then [""] else Extend(Split(s[..|s| - 1]), s[|s| - 1])
  }

  /** White space as Unicode defines it. */
  predicate IsSpace(c: char) {
    c in {'\t', '\n', '\U{0B}', '\U{0C}', '\r', ' ', '\U{85}', '\U{A0}', '\U{1680}', '\U{2028}', '\U{2029}',
          '\U{202F}', '\U{205F}', '\U{3000}'} || '\U{2000}' <= c <= '\U{200A}'
  }

  function TrimLeft(s: string): string {
    if s != [] && IsSpace(s[0]) then TrimLeft(s[1..]) else s
  }

  function TrimRight(s: string): string {
    if s != [] && IsSpace(s[|s| - 1]) then TrimRight(s[..|s| - 1]) else s
  }

  function TrimSpace(s: string): string {
    TrimRight(TrimLeft(s))
  }

  function FromString(s: string): Result<Option<ContainerIdent>> {
    if s == "" then Ok(None) else
    var items := Split(s);
    if |items| != 3 then Malformed
    else Ok(Some(ContainerIdent(TrimSpace(items[0]), TrimSpace(items[1]), TrimSpace(items[2]))))
  }

  /** The command line starts from the printed identity and parses whatever is left there, unless it is empty. */
  function FlagsPass(ci: Option<ContainerIdent>): Result<Option<ContainerIdent>> {
    if Print(ci) != "" then FromString(Print(ci)) else Ok(ci)
  }

  // ---------- what survives ----------

  predicate Plain(s: string) {
    '/' !in s && (s != [] ==> !IsSpace(s[0]) && !IsSpace(s[|s| - 1]))
  }

  lemma {:induction false} SplitPlain(s: string)
    ensures '/' !in s <==> |Split(s)| == 1
    ensures '/' !in s ==> Split(s) == [s]
  {
    if s != [] {
      SplitPlain(s[..|s| - 1]);
      assert s == s[..|s| - 1] + [s[|s| - 1]];
    }
  }

  lemma {:induction false} SplitAt(a: string, b: string)
    ensures Split(a + "/" + b) == Split(a) + Split(b)
  {
    var s := a + "/" + b;
    if b == [] {
      assert s[..|s| - 1] == a;
    } else {
      var front, last := b[..|b| - 1], b[|b| - 1];
      SplitAt(a, front);
      assert s[..|s| - 1] == a + "/" + front && s[|s| - 1] == last;
      assert Extend(Split(a) + Split(front), last) == Split(a) + Extend(Split(front), last);
    }
  }

  lemma {:induction false} TrimLeftShrinks(s: string)
    ensures TrimLeft(s) == s || |TrimLeft(s)| < |s|
    ensures TrimLeft(s) == s <==> (s != [] ==> !IsSpace(s[0]))
  {
    if s != [] && IsSpace(s[0]) { TrimLeftShrinks(s[1..]); }
  }

  lemma {:induction false} TrimRightShrinks(s: string)
    ensures TrimRight(s) == s || |TrimRight(s)| < |s|
    ensures TrimRight(s) == s <==> (s != [] ==> !IsSpace(s[|s| - 1]))
  {
    if s != [] && IsSpace(s[|s| - 1]) { TrimRightShrinks(s[..|s| - 1]); }
  }

  lemma {:induction false} TrimSpaceFixed(s: string)
    ensures TrimSpace(s) == s <==> (s != [] ==> !IsSpace(s[0]) && !IsSpace(s[|s| - 1]))
  {
    TrimLeftShrinks(s);
    TrimRightShrinks(TrimLeft(s));
  }

  lemma {:induction false} SplitPrinted(ci: ContainerIdent)
    ensures Split(Print(Some(ci))) == Split(ci.namespace) + Split(ci.podName) + Split(ci.containerName)
  {
    SplitAt(ci.namespace + "/" + ci.podName, ci.containerName);
    SplitAt(ci.namespace, ci.podName);
  }

  /** Printing and parsing an identity gives it back exactly when no part holds a slash or starts or ends with a
      space; so a reference container from the file or the environment survives the command line pass under that same
      condition. */
  lemma {:induction false} RoundTrip(ci: Option<ContainerIdent>)
    ensures var plain := ci.None? || (Plain(ci.value.namespace) && Plain(ci.value.podName) &&
                                      Plain(ci.value.containerName));
            && (FromString(Print(ci)) == Ok(ci) <==> plain)
            && (FlagsPass(ci) == Ok(ci) <==> plain)
  {
    if ci.Some? {
      var c := ci.value;
      SplitPrinted(c);
      SplitPlain(c.namespace);
      SplitPlain(c.podName);
      SplitPlain(c.containerName);
      TrimSpaceFixed(c.namespace);
      TrimSpaceFixed(c.podName);
      TrimSpaceFixed(c.containerName);
      assert Print(ci)[|c.namespace|] == '/';
    }
  }

  // ---------- what is read from any text ----------

  predicate AllSpace(s: string) { forall i :: 0 <= i < |s| ==> IsSpace(s[i]) }

  lemma {:induction false} TrimLeftMeans(s: string) returns (before: string)
    ensures s == before + TrimLeft(s) && AllSpace(before)
  {
    if s != [] && IsSpace(s[0]) {
      var rest := TrimLeftMeans(s[1..]);
      before := [s[0]] + rest;
      assert before + TrimLeft(s) == [s[0]] + (rest + TrimLeft(s[1..])) == s;
      assert forall i :: 1 <= i < |before| ==> before[i] == rest[i - 1];
    } else {
      before := [];
    }
  }

  lemma {:induction false} TrimRightMeans(s: string) returns (after: string)
    ensures s == TrimRight(s) + after && AllSpace(after)
    ensures TrimRight(s) <= s
  {
    if s != [] && IsSpace(s[|s| - 1]) {
      var rest := TrimRightMeans(s[..|s| - 1]);
      after := rest + [s[|s| - 1]];
      assert TrimRight(s) + after == (TrimRight(s[..|s| - 1]) + rest) + [s[|s| - 1]] == s;
    } else {
      after := [];
    }
  }

  /** A trimmed text is the text without the white space around it. */
  lemma {:induction false} TrimMeans(s: string) returns (before: string, after: string)
    ensures s == before + TrimSpace(s) + after && AllSpace(before) && AllSpace(after)
    ensures var t := TrimSpace(s);
            t != [] ==> !IsSpace(t[0]) && !IsSpace(t[|t| - 1])
  {
    before := TrimLeftMeans(s);
    after := TrimRightMeans(TrimLeft(s));
    TrimLeftShrinks(TrimLeft(s));
    TrimLeftTwice(s);
    TrimRightTwice(TrimLeft(s));
  }

  lemma {:induction false} TrimLeftTwice(s: string)
    ensures TrimLeft(s) != [] ==> !IsSpace(TrimLeft(s)[0])
  {
    if s != [] && IsSpace(s[0]) { TrimLeftTwice(s[1..]); }
  }

  lemma {:induction false} TrimRightTwice(s: string)
    ensures TrimRight(s) != [] ==> !IsSpace(TrimRight(s)[|TrimRight(s)| - 1])
  {
    if s != [] && IsSpace(s[|s| - 1]) { TrimRightTwice(s[..|s| - 1]); }
  }

  function Slashes(s: string): nat { multiset(s)['/'] }

  function Joined(items: seq<string>): string {
    if items == [] then "" else if |items| == 1 then items[0]
    else Joined(items[..|items| - 1]) + "/" + items[|items| - 1]
  }

  lemma {:induction false} SplitCount(s: string)
    ensures |Split(s)| == Slashes(s) + 1
  {
    if s != [] {
      SplitCount(s[..|s| - 1]);
      assert s == s[..|s| - 1] + [s[|s| - 1]];
    }
  }

  lemma {:induction false} SplitHasNoSlash(s: string)
    ensures forall i :: 0 <= i < |Split(s)| ==> '/' !in Split(s)[i]
  {
    if s != [] { SplitHasNoSlash(s[..|s| - 1]); }
  }

  lemma {:induction false} JoinedExtend(items: seq<string>, c: char)
    requires items != []
    ensures Joined(Extend(items, c)) == Joined(items) + [c]
  {
    var n := |items|;
    if c == '/' {
      assert (items + [""])[..n] == items;
      assert Joined(items) + "/" + "" == Joined(items) + [c];
    } else if n == 1 {
      assert Extend(items, c) == [items[0] + [c]];
    } else {
      var last := items[n - 1];
      assert Extend(items, c)[..n - 1] == items[..n - 1] && Extend(items, c)[n - 1] == last + [c];
      assert Joined(items[..n - 1]) + "/" + (last + [c]) == Joined(items[..n - 1]) + "/" + last + [c];
    }
  }

  /** The pieces, joined again by slashes, are the text. */
  lemma {:induction false} SplitJoins(s: string)
    ensures Joined(Split(s)) == s
  {
    if s != [] {
      SplitJoins(s[..|s| - 1]);
      JoinedExtend(Split(s[..|s| - 1]), s[|s| - 1]);
      assert s == s[..|s| - 1] + [s[|s| - 1]];
    }
  }

  lemma {:induction false} JoinedThree(items: seq<string>)
    requires |items| == 3
    ensures Joined(items) == items[0] + "/" + items[1] + "/" + items[2]
  {
    assert items[..2][..1] == [items[0]];
    assert Joined([items[0]]) == items[0];
    assert Joined(items[..2]) == items[0] + "/" + items[1];
  }

  /** What is read from any text: nothing from an empty one, an error unless there are exactly two slashes, and
      otherwise the three parts between them, trimmed. */
  lemma {:induction false} FromStringMeans(s: string)
    ensures FromString(s) == Ok(None) <==> s == ""
    ensures FromString(s) == Malformed <==> s != "" && Slashes(s) != 2
    ensures s != "" && Slashes(s) == 2 ==>
              exists a: string, b: string, c: string ::
                && s == a + "/" + b + "/" + c && '/' !in a && '/' !in b && '/' !in c
                && FromString(s) == Ok(Some(ContainerIdent(TrimSpace(a), TrimSpace(b), TrimSpace(c))))
  {
    SplitCount(s);
    if s != "" && Slashes(s) == 2 {
      var items := Split(s);
      SplitJoins(s);
      JoinedThree(items);
      SplitHasNoSlash(s);
    }
  }
}
