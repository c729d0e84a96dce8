/** What the interpreter makes of a printed command: exactly the commands that come back, whatever
    brackets, white space or dashes their tokens hold. */
module CommandRoundTrip {
  import opened Entities
  import opened Selection
  import opened CommandText

  // ---------- Reading what was printed ----------

  // The opening brackets of a text less the closing ones
  function Balance(s: string): int {
    if s == "" then 0 else DepthStep(s[0]) + Balance(s[1..])
  }

  // No white space of the text is where brackets are balanced, counting from a depth
  predicate Unbroken(s: string, depth: int) {
    s == "" || ((IsSpace(s[0]) ==> depth != 0) && Unbroken(s[1..], depth + DepthStep(s[0])))
  }

  // Some bracket is opened and one is closed behind it
  predicate Encloses(token: string) {
    exists i, j :: 0 <= i < j < |token| && token[i] == '<' && token[j] == '>'
  }

  // A token that is put in brackets must be in one line, any other must not look as if it were in some
  predicate IsFreed(token: string) {
    if HasSpace(token) then !HasLineBreak(token) else !Encloses(token)
  }

  // Nor may a token's own brackets end those around it before a white space
  predicate IsReadable(token: string) {
    IsFreed(token) && (HasSpace(token) ==> Unbroken(token, 1))
  }

  // A first parameter that would be taken for an option
  predicate LooksLikeOption(param: string) {
    param != "" && param[0] == '-' && !HasSpace(param)
  }

  function Tokens(c: Command): seq<string> {
    [c.name] + c.options + c.params
  }

  ghost predicate NoneEmpty(words: seq<string>) {
    forall i :: 0 <= i < |words| ==> words[i] != ""
  }

  // Every token but the last closes what it opens
  ghost predicate IsPrintable(c: Command) {
    && c.name != "" && NoneEmpty(c.params)
    && (forall i :: 0 <= i < |Tokens(c)| ==> IsReadable(Tokens(c)[i]))
    && (forall i :: 0 <= i < |Tokens(c)| - 1 ==> Balance(Tokens(c)[i]) == 0)
    && (c.params != [] ==> !LooksLikeOption(c.params[0]))
  }

  // ---------- Where words end ----------

  lemma {:induction false} BalanceConcat(a: string, b: string, depth: int)
    ensures Balance(a + b) == Balance(a) + Balance(b)
    ensures Unbroken(a + b, depth) <==> Unbroken(a, depth) && Unbroken(b, depth + Balance(a))
  {
    if a == "" {
      assert a + b == b;
    } else {
      BalanceConcat(a[1..], b, depth + DepthStep(a[0]));
      assert (a + b)[1..] == a[1..] + b;
    }
  }

  lemma {:induction false} UnbrokenWithoutSpace(s: string, depth: int)
    requires !HasSpace(s)
    ensures Unbroken(s, depth)
  {
    if s != "" {
      assert s[0] in s && forall c :: c in s[1..] ==> c in s;
      UnbrokenWithoutSpace(s[1..], depth + DepthStep(s[0]));
    }
  }

  // Where the first word inside a text ends, and that the rest is split on its own
  lemma {:induction false} InWordCut(word: string, s: string, depth: int) returns (n: nat)
    ensures n <= |s| && InWord(word, s, depth) != [] && InWord(word, s, depth)[0] == word + s[..n]
    ensures n == |s| ==> |InWord(word, s, depth)| == 1
    ensures n < |s| ==> IsSpace(s[n]) && InWord(word, s, depth)[1..] == SplitFrom(s[n + 1..])
    ensures n == 0 && s != "" ==> depth == 0 && IsSpace(s[0])
    decreases s
  {
    if s == "" || (IsSpace(s[0]) && depth == 0) {
      n := 0;
      assert word + s[..0] == word;
    } else {
      var m := InWordCut(word + [s[0]], s[1..], depth + DepthStep(s[0]));
      n := m + 1;
      assert word + [s[0]] + s[1..][..m] == word + s[..n];
      assert n < |s| ==> s[1..][m + 1..] == s[n + 1..];
    }
  }

  lemma FirstCut(s: string) returns (k: nat, n: nat)
    requires s != ""
    ensures k + n <= |s| && SplitFrom(s) != [] && SplitFrom(s)[0] == s[k..k + n]
    ensures k + n == |s| ==> |SplitFrom(s)| == 1
    ensures k + n < |s| ==> IsSpace(s[k + n]) && SplitFrom(s)[1..] == SplitFrom(s[k + n + 1..])
    ensures k == 0 <==> !IsSpace(s[0])
  {
    SkipShrinks(s);
    var rest := SkipSpaces(s);
    k := |s| - |rest|;
    n := InWordCut("", rest, 0);
    assert "" + rest[..n] == s[k..k + n];
    assert k + n < |s| ==> rest[n + 1..] == s[k + n + 1..];
  }

  // A word is run through if it is unbroken, and cut short if it is not
  lemma {:induction false} RunThrough(word: string, w: string, s: string, depth: int)
    ensures Unbroken(w, depth) ==> InWord(word, w + s, depth) == InWord(word + w, s, depth + Balance(w))
    ensures !Unbroken(w, depth) ==>
              InWord(word, w + s, depth) != [] && |InWord(word, w + s, depth)[0]| < |word| + |w|
    decreases w
  {
    if w == "" {
      assert w + s == s && word + w == word;
    } else {
      RunThrough(word + [w[0]], w[1..], s, depth + DepthStep(w[0]));
      assert (w + s)[1..] == w[1..] + s;
      assert word + [w[0]] + w[1..] == word + w;
    }
  }

  lemma {:induction false} JoinedFirst(words: seq<string>)
    requires |words| > 1
    ensures Joined(words) == words[0] + (" " + Joined(words[1..]))
  {
    var n := |words| - 1;
    if n > 1 {
      JoinedFirst(words[..n]);
      assert words[..n][1..] == words[1..][..n - 1];
      JoinedSnoc(words[1..][..n - 1], words[n]);
      assert words[1..] == words[1..][..n - 1] + [words[n]];
      Regroup(words[0], " ", Joined(words[1..][..n - 1]), " " + words[n]);
    } else {
      assert words[..1] == [words[0]] && words[1..] == [words[1]];
    }
  }

  lemma Regroup(a: string, b: string, c: string, d: string)
    ensures a + (b + c) + d == a + (b + (c + d))
  {
  }

  // ---------- What can be read for a printed word ----------

  // What is left of a word when its outer brackets are gone
  predicate IsBare(o: string, w: string) {
    HasSpace(o) && (w == "<" + o + ">" || (o[0] == '-' && w == "-<" + o[1..] + ">"))
  }

  // A word that is freed to a token is as long as the printed one, or is bare
  predicate MayRead(o: string, w: string) {
    |o| >= |w| || (o != "" && IsBare(o, w))
  }

  ghost predicate AllMayRead(os: seq<string>, ws: seq<string>) {
    |os| == |ws| && forall i :: 0 <= i < |os| ==> MayRead(os[i], ws[i])
  }

  lemma {:induction false} AllAlike(s: string)
    requires s != "" && forall k :: 0 <= k < |s| - 1 ==> s[k] == s[k + 1]
    ensures s[|s| - 1] == s[0] && forall d :: d in s ==> d == s[0]
  {
    if |s| > 1 {
      AllAlike(s[1..]);
      assert s == [s[0]] + s[1..];
      assert s[0] == s[1..][0];
    }
  }

  // A bare word cannot be read from one or two characters behind where its brackets stand
  lemma BareNotBehind(o: string, w: string, text: string, k: nat)
    requires o != "" && IsBare(o, w) && w <= text && 1 <= k <= 2
    requires k + |o| <= |text| && text[k..k + |o|] == o
    ensures k + |o| < |text| && !IsSpace(text[k + |o|])
  {
    assert |w| == |o| + 2;
    if k == 1 {
      assert o[0] == text[1] == w[1];
      assert text[1 + |o|] == w[|w| - 1] == '>';
    } else {
      var last := |o| - 1;
      forall i | 0 <= i < last ensures o[i] == o[i + 1] {
        assert o[i] == text[2..2 + |o|][i] == w[2 + i];
      }
      assert o[last] == text[2..2 + |o|][last] == w[2 + last] == '>';
      AllAlike(o);
      assert false;
    }
  }

  // Nor is it the beginning of the word
  lemma BareNotPrefix(o: string, w: string)
    requires o != "" && IsBare(o, w)
    ensures !(o <= w)
  {
    if o <= w {
      if w == "<" + o + ">" {
        forall i | 0 <= i < |o| - 1 ensures o[i] == o[i + 1] {
          assert o[i + 1] == w[i + 1];
        }
        AllAlike(o);
      } else {
        var tail := o[1..];
        assert tail != "" && o == "-" + tail && w == "-<" + tail + ">";
        assert tail[0] == o[1] == w[1];
        forall i | 0 <= i < |tail| - 1 ensures tail[i] == tail[i + 1] {
          assert tail[i + 1] == o[i + 2] == w[i + 2];
        }
        AllAlike(tail);
      }
      assert false;
    }
  }

  // ---------- The words read are the words printed ----------

  predicate IsBehind(s: string, text: string) {
    |s| < |text| && s == text[|text| - |s|..]
  }

  // What the first word read from behind the beginning of a text is in the text
  lemma CutInText(text: string, s: string) returns (from: nat, cut: nat)
    requires s != "" && IsBehind(s, text)
    ensures 1 <= from <= cut <= |text| && SplitFrom(s) != [] && SplitFrom(s)[0] == text[from..cut]
    ensures cut == |text| ==> |SplitFrom(s)| == 1
    ensures cut < |text| ==> IsSpace(text[cut]) && SplitFrom(s)[1..] == SplitFrom(text[cut + 1..])
  {
    var k, n := FirstCut(s);
    from := |text| - |s| + k;
    cut := from + n;
    assert text[from..cut] == s[k..k + n];
    if cut < |text| {
      assert text[cut] == s[k + n] && text[cut + 1..] == s[k + n + 1..];
    }
  }

  // Reading behind the beginning of a word ends behind its end
  lemma CutBehind(text: string, w: string, s: string) returns (cut: nat)
    requires w <= text && s != "" && IsBehind(s, text)
    requires SplitFrom(s) != [] && MayRead(SplitFrom(s)[0], w)
    ensures |w| < cut <= |text|
    ensures cut == |text| ==> |SplitFrom(s)| == 1
    ensures cut < |text| ==> SplitFrom(s)[1..] == SplitFrom(text[cut + 1..])
  {
    var from: nat;
    from, cut := CutInText(text, s);
    if cut - from < |w| && from <= 2 {
      BareNotBehind(SplitFrom(s)[0], w, text, from);
    }
  }

  lemma RestBehind(text: string, w: string, tail: string, cut: nat, rest: string)
    requires text == w + (" " + tail) && |w| < cut < |text| && rest == text[cut + 1..]
    ensures IsBehind(rest, tail)
  {
  }

  lemma RestMayRead(os: seq<string>, ws: seq<string>)
    requires os != [] && AllMayRead(os, ws)
    ensures AllMayRead(os[1..], ws[1..])
  {
    forall i | 0 <= i < |os| - 1 ensures MayRead(os[1..][i], ws[1..][i]) {
      assert MayRead(os[i + 1], ws[i + 1]);
    }
  }

  lemma BehindNext(ws: seq<string>, s: string) returns (rest: string)
    requires |ws| > 1 && s != "" && IsBehind(s, Joined(ws)) && AllMayRead(SplitFrom(s), ws)
    ensures IsBehind(rest, Joined(ws[1..])) && AllMayRead(SplitFrom(rest), ws[1..])
  {
    JoinedFirst(ws);
    assert MayRead(SplitFrom(s)[0], ws[0]);
    var cut := CutBehind(Joined(ws), ws[0], s);
    rest := Joined(ws)[cut + 1..];
    RestMayRead(SplitFrom(s), ws);
    RestBehind(Joined(ws), ws[0], Joined(ws[1..]), cut, rest);
  }

  // A reader that is behind the beginning of the first word never catches up
  lemma {:induction false} NeverCatchesUp(ws: seq<string>, s: string)
    requires ws != [] && IsBehind(s, Joined(ws))
    ensures !AllMayRead(SplitFrom(s), ws)
  {
    if s != "" && AllMayRead(SplitFrom(s), ws) {
      if |ws| == 1 {
        var cut := CutBehind(ws[0], ws[0], s);
      } else {
        var rest := BehindNext(ws, s);
        NeverCatchesUp(ws[1..], rest);
      }
    }
  }

  // White space comes first in no word
  ghost predicate StartWell(ws: seq<string>) {
    forall i :: 0 <= i < |ws| && ws[i] != "" ==> !IsSpace(ws[i][0])
  }

  // Nor does a reader that skips an empty first word
  lemma EmptyIsSkipped(ws: seq<string>)
    requires ws != [] && ws[0] == ""
    ensures !AllMayRead(SplitFrom(Joined(ws)), ws)
  {
    if |ws| > 1 && AllMayRead(SplitFrom(Joined(ws)), ws) {
      var text := Joined(ws);
      JoinedFirst(ws);
      var k, n := FirstCut(text);
      var rest := text[k + n + 1..];
      RestMayRead(SplitFrom(text), ws);
      RestBehind(text, "", Joined(ws[1..]), k + n, rest);
      NeverCatchesUp(ws[1..], rest);
    }
  }

  // Reading from the beginning of a word ends with it, or else behind its end
  lemma CutAt(text: string, w: string) returns (cut: nat)
    requires w != "" && w <= text && !IsSpace(w[0])
    requires SplitFrom(text) != [] && MayRead(SplitFrom(text)[0], w)
    ensures |w| <= cut <= |text| && SplitFrom(text)[0] == text[..cut]
    ensures cut == |text| ==> |SplitFrom(text)| == 1
    ensures cut < |text| ==> SplitFrom(text)[1..] == SplitFrom(text[cut + 1..])
  {
    assert text[0] == w[0];
    var k, n := FirstCut(text);
    cut := n;
    if n < |w| {
      assert text[..n] == w[..n];
      BareNotPrefix(SplitFrom(text)[0], w);
    }
  }

  // The first word is read as it is
  lemma FirstIsRead(ws: seq<string>)
    requires |ws| > 1 && ws[0] != "" && !IsSpace(ws[0][0]) && AllMayRead(SplitFrom(Joined(ws)), ws)
    ensures SplitFrom(Joined(ws)) == [ws[0]] + SplitFrom(Joined(ws[1..]))
  {
    var text, w := Joined(ws), ws[0];
    JoinedFirst(ws);
    var cut := CutAt(text, w);
    if cut > |w| {
      NoOverrun(ws, cut);
    }
    assert text[cut + 1..] == Joined(ws[1..]) && text[..cut] == w;
  }

  // Reading on over the end of the first word leaves the reader behind
  lemma NoOverrun(ws: seq<string>, cut: nat)
    requires |ws| > 1 && SplitFrom(Joined(ws)) != [] && |ws[0]| < cut < |Joined(ws)|
    requires SplitFrom(Joined(ws))[1..] == SplitFrom(Joined(ws)[cut + 1..])
    ensures !AllMayRead(SplitFrom(Joined(ws)), ws)
  {
    if AllMayRead(SplitFrom(Joined(ws)), ws) {
      var rest := Joined(ws)[cut + 1..];
      JoinedFirst(ws);
      RestMayRead(SplitFrom(Joined(ws)), ws);
      RestBehind(Joined(ws), ws[0], Joined(ws[1..]), cut, rest);
      NeverCatchesUp(ws[1..], rest);
    }
  }

  /** If every word read may be read for the printed one in its place, they are the printed ones. */
  lemma {:induction false} ReadAsPrinted(ws: seq<string>)
    requires ws != [] && StartWell(ws) && AllMayRead(SplitFrom(Joined(ws)), ws)
    ensures SplitFrom(Joined(ws)) == ws
  {
    var os := SplitFrom(Joined(ws));
    if ws[0] == "" {
      EmptyIsSkipped(ws);
    } else if |ws| == 1 {
      var w := ws[0];
      var cut := CutAt(w, w);
      assert w[..cut] == w && os == [os[0]];
    } else {
      FirstIsRead(ws);
      RestMayRead(os, ws);
      assert os[1..] == SplitFrom(Joined(ws[1..]));
      ReadAsPrinted(ws[1..]);
      assert ws == [ws[0]] + ws[1..];
    }
  }

  // No word is broken, and brackets are balanced in all words but the last
  ghost predicate KeepApart(ws: seq<string>) {
    && (forall i :: 0 <= i < |ws| ==> Unbroken(ws[i], 0))
    && (forall i :: 0 <= i < |ws| - 1 ==> Balance(ws[i]) == 0)
  }

  lemma SplitFirst(w: string, tail: string)
    requires w != "" && !IsSpace(w[0])
    ensures SplitFrom(w + tail) != []
    ensures tail == "" ==> (SplitFrom(w + tail) == [w] <==> Unbroken(w, 0))
    ensures tail != "" && IsSpace(tail[0]) && Unbroken(w, 0) && Balance(w) == 0 ==>
              SplitFrom(w + tail) == [w] + SplitFrom(tail[1..])
    ensures tail != "" && !(Unbroken(w, 0) && Balance(w) == 0) ==> SplitFrom(w + tail)[0] != w
  {
    assert SkipSpaces(w + tail) == w + tail;
    RunThrough("", w, tail, 0);
    assert "" + w == w;
    var n := InWordCut(w, tail, Balance(w));
  }

  /** Words joined by spaces are split again into themselves exactly when none is empty, none has white
      space outside brackets, and all but the last have their brackets balanced. */
  lemma {:induction false} SplitJoined(ws: seq<string>)
    requires ws != [] && StartWell(ws)
    ensures SplitFrom(Joined(ws)) == ws <==> NoneEmpty(ws) && KeepApart(ws)
  {
    var w := ws[0];
    if w == "" {
      EmptyIsSkipped(ws);
      assert SplitFrom(Joined(ws)) == ws ==> AllMayRead(SplitFrom(Joined(ws)), ws);
    } else if |ws| == 1 {
      SplitFirst(w, "");
      assert w + "" == w && ws == [w];
    } else {
      var rest := ws[1..];
      JoinedFirst(ws);
      SplitFirst(w, " " + Joined(rest));
      SplitJoined(rest);
      assert ws == [w] + rest && (" " + Joined(rest))[1..] == Joined(rest);
      assert NoneEmpty(ws) <==> NoneEmpty(rest);
      KeepApartFirst(ws);
    }
  }

  lemma KeepApartFirst(ws: seq<string>)
    requires |ws| > 1
    ensures KeepApart(ws) <==> Unbroken(ws[0], 0) && Balance(ws[0]) == 0 && KeepApart(ws[1..])
  {
    if Unbroken(ws[0], 0) && Balance(ws[0]) == 0 && KeepApart(ws[1..]) {
      forall i | 0 <= i < |ws| ensures Unbroken(ws[i], 0) && (i < |ws| - 1 ==> Balance(ws[i]) == 0) {
        assert i > 0 ==> ws[i] == ws[1..][i - 1];
      }
    }
  }

  // ---------- Tokens and their brackets ----------

  lemma WrapKeepsBrackets(t: string)
    ensures Balance(Wrap(t)) == Balance(t) && Balance("-" + Wrap(t)) == Balance(t)
    ensures Unbroken(Wrap(t), 0) <==> HasSpace(t) ==> Unbroken(t, 1)
    ensures Unbroken("-" + Wrap(t), 0) <==> HasSpace(t) ==> Unbroken(t, 1)
  {
    var w := Wrap(t);
    assert ("-" + w)[1..] == w;
    if HasSpace(t) {
      assert w == "<" + (t + ">") && ("<" + (t + ">"))[1..] == t + ">";
      BalanceConcat(t, ">", 1);
    } else {
      UnbrokenWithoutSpace(t, 0);
    }
  }

  lemma WordsStartWell(c: Command)
    ensures StartWell(Words(c))
  {
    forall i | 0 <= i < |Words(c)| && Words(c)[i] != "" ensures !IsSpace(Words(c)[i][0]) {
      if i == 0 {
        WrapStartsWell(c.name);
      } else if i > |c.options| {
        WrapStartsWell(c.params[i - 1 - |c.options|]);
      }
    }
  }

  lemma WrapStartsWell(t: string)
    requires Wrap(t) != ""
    ensures !IsSpace(Wrap(t)[0])
  {
    if !HasSpace(t) {
      assert t[0] in t;
    }
  }

  // What the words of a command are, token by token
  lemma WordOfToken(c: Command, i: nat)
    requires i < |Words(c)|
    ensures |Tokens(c)| == |Words(c)|
    ensures Words(c)[i] == if 1 <= i <= |c.options| then "-" + Wrap(Tokens(c)[i]) else Wrap(Tokens(c)[i])
  {
  }

  lemma WordsKeepApart(c: Command)
    ensures KeepApart(Words(c)) <==>
            && (forall i :: 0 <= i < |Tokens(c)| ==> HasSpace(Tokens(c)[i]) ==> Unbroken(Tokens(c)[i], 1))
            && (forall i :: 0 <= i < |Tokens(c)| - 1 ==> Balance(Tokens(c)[i]) == 0)
  {
    var words, tokens := Words(c), Tokens(c);
    assert |words| == |tokens|;
    forall i | 0 <= i < |words|
      ensures Unbroken(words[i], 0) <==> HasSpace(tokens[i]) ==> Unbroken(tokens[i], 1)
      ensures Balance(words[i]) == Balance(tokens[i])
    {
      WordOfToken(c, i);
      WrapKeepsBrackets(tokens[i]);
    }
  }

  lemma NoEmptyWord(c: Command)
    ensures NoneEmpty(Words(c)) <==> c.name != "" && NoneEmpty(c.params)
  {
    var words, skipped := Words(c), 1 + |c.options|;
    if NoneEmpty(words) {
      assert words[0] == Wrap(c.name);
      forall i | 0 <= i < |c.params| ensures c.params[i] != "" {
        assert words[skipped + i] == Wrap(c.params[i]);
      }
    }
    if c.name != "" && NoneEmpty(c.params) {
      forall i | 0 <= i < |words| ensures words[i] != "" {
        if skipped <= i {
          assert words[i] == Wrap(c.params[i - skipped]);
        }
      }
    }
  }

  // ---------- Freeing a token ----------

  lemma {:induction false} LastCloseInLine(s: string)
    ensures LastClose(s).Some? ==> s[LastClose(s).value] == '>' && !HasLineBreak(s[..LastClose(s).value])
    ensures !HasLineBreak(s) ==> (LastClose(s).Some? <==> '>' in s)
  {
    if s != "" {
      LastCloseInLine(s[1..]);
      assert s == [s[0]] + s[1..];
      if !IsLineBreak(s[0]) && LastClose(s[1..]).Some? {
        var k := LastClose(s[1..]).value;
        assert s[..k + 1] == [s[0]] + s[1..][..k];
      }
    }
  }

  lemma {:induction false} LastCloseAtEnd(t: string)
    requires !HasLineBreak(t)
    ensures LastClose(t + ">") == Some(|t|)
  {
    if t == "" {
      assert t + ">" == ">";
    } else {
      assert t[0] in t && forall c :: c in t[1..] ==> c in t;
      assert (t + ">")[1..] == t[1..] + ">";
      LastCloseAtEnd(t[1..]);
    }
  }

  lemma {:induction false} EnclosedIsShorter(s: string)
    ensures Enclosed(s).Some? ==> |Enclosed(s).value| + 2 <= |s|
  {
    if s != "" && !(s[0] == '<' && LastClose(s[1..]).Some?) {
      EnclosedIsShorter(s[1..]);
    }
  }

  lemma EnclosesFirst(s: string)
    requires s != ""
    ensures Encloses(s) <==> (s[0] == '<' && '>' in s[1..]) || Encloses(s[1..])
  {
    if Encloses(s) {
      var i, j :| 0 <= i < j < |s| && s[i] == '<' && s[j] == '>';
      assert s[j] == s[1..][j - 1];
      assert i > 0 ==> s[i] == s[1..][i - 1];
    }
    if Encloses(s[1..]) {
      var i, j :| 0 <= i < j < |s[1..]| && s[1..][i] == '<' && s[1..][j] == '>';
      assert s[i + 1] == '<' && s[j + 1] == '>';
    }
    if s[0] == '<' && '>' in s[1..] {
      var j :| 0 <= j < |s[1..]| && s[1..][j] == '>';
      assert s[j + 1] == '>';
    }
  }

  lemma {:induction false} EnclosedInLine(s: string)
    requires !HasLineBreak(s)
    ensures Enclosed(s).Some? <==> Encloses(s)
  {
    if s != "" {
      assert forall c :: c in s[1..] ==> c in s;
      EnclosedInLine(s[1..]);
      LastCloseInLine(s[1..]);
      EnclosesFirst(s);
    }
  }

  /** A printed token is freed to itself exactly when it is put in brackets and has no line break, or is
      not put in brackets and does not enclose anything itself. */
  lemma FreeUndoesWrap(t: string)
    ensures FreeFromComposite(Wrap(t)) == t <==> IsFreed(t)
  {
    if HasSpace(t) {
      var inner := t + ">";
      assert Wrap(t) == "<" + inner && ("<" + inner)[1..] == inner;
      if HasLineBreak(t) {
        LastCloseInLine(inner);
        EnclosedIsShorter(inner);
        assert inner[..|t|] == t;
      } else {
        LastCloseAtEnd(t);
        assert inner[..|t|] == t;
      }
    } else {
      assert HasLineBreak(t) ==> HasSpace(t);
      EnclosedInLine(t);
      EnclosedIsShorter(t);
    }
  }

  lemma FreedMayBeRead(o: string, t: string)
    requires FreeFromComposite(o) == t
    ensures MayRead(o, Wrap(t))
  {
    EnclosedIsShorter(o);
  }

  lemma FreedOptionMayBeRead(o: string, t: string)
    requires IsOptionWord(o) && FreedOption(o) == t
    ensures MayRead(o, "-" + Wrap(t))
  {
    EnclosedIsShorter(o[1..]);
    if Enclosed(o[1..]).None? && HasSpace(t) {
      BareOption(o, t);
    }
  }

  lemma BareOption(o: string, t: string)
    requires o != "" && o[0] == '-' && o[1..] == t && HasSpace(t)
    ensures IsBare(o, "-" + Wrap(t))
  {
    var c :| c in t && IsSpace(c);
    assert c in o;
    assert "-" + ("<" + t + ">") == "-<" + t + ">";
  }

  // ---------- The round trip ----------

  lemma WrapKeepsLineBreaks(t: string)
    ensures HasLineBreak(Wrap(t)) == HasLineBreak(t) && HasLineBreak("-" + Wrap(t)) == HasLineBreak(t)
  {
    assert forall c :: c in "<" + t + ">" <==> c == '<' || c in t || c == '>';
    assert forall c :: c in "-" + Wrap(t) <==> c == '-' || c in Wrap(t);
  }

  lemma PrintedOption(o: string)
    ensures IsOptionWord("-" + Wrap(o)) <==> !HasLineBreak(o)
    ensures FreedOption("-" + Wrap(o)) == FreeFromComposite(Wrap(o))
  {
    WrapKeepsLineBreaks(o);
    assert ("-" + Wrap(o))[1..] == Wrap(o);
  }

  lemma PrintedParam(p: string)
    ensures IsOptionWord(Wrap(p)) <==> LooksLikeOption(p)
  {
    WrapKeepsLineBreaks(p);
    assert HasLineBreak(p) ==> HasSpace(p);
  }

  lemma OptionsReadBack(c: Command)
    ensures LeadingOptions(Words(c)[1..]) == |c.options| <==>
            && (forall i :: 0 <= i < |c.options| ==> !HasLineBreak(c.options[i]))
            && (c.params != [] ==> !LooksLikeOption(c.params[0]))
  {
    var rest := Words(c)[1..];
    var n := LeadingOptions(rest);
    LeadingOptionWords(rest);
    forall i | 0 <= i < |c.options| ensures IsOptionWord(rest[i]) <==> !HasLineBreak(c.options[i]) {
      PrintedOption(c.options[i]);
    }
    if c.params != [] {
      assert rest[|c.options|] == Wrap(c.params[0]);
      PrintedParam(c.params[0]);
    }
  }

  // The words of a command make the command again exactly under these conditions
  ghost predicate ReadsBack(c: Command) {
    && IsFreed(c.name)
    && (forall i :: 0 <= i < |c.options| ==> IsFreed(c.options[i]))
    && (forall i :: 0 <= i < |c.params| ==> IsFreed(c.params[i]))
    && (c.params != [] ==> !LooksLikeOption(c.params[0]))
  }

  lemma FreedOptions(c: Command)
    requires |FromWords(Words(c)).options| == |c.options|
    ensures FromWords(Words(c)).options == c.options <==> forall i :: 0 <= i < |c.options| ==> IsFreed(c.options[i])
  {
    var made, rest := FromWords(Words(c)), Words(c)[1..];
    forall i | 0 <= i < |c.options| ensures made.options[i] == c.options[i] <==> IsFreed(c.options[i]) {
      PrintedOption(c.options[i]);
      FreeUndoesWrap(c.options[i]);
      assert rest[i] == "-" + Wrap(c.options[i]);
    }
  }

  lemma FreedParams(c: Command)
    requires |FromWords(Words(c)).options| == |c.options|
    ensures FromWords(Words(c)).params == c.params <==> forall i :: 0 <= i < |c.params| ==> IsFreed(c.params[i])
  {
    var made, rest, n := FromWords(Words(c)).params, Words(c)[1..], |c.options|;
    assert |rest| == n + |c.params| && |made| == |c.params|;
    forall i | 0 <= i < |made| ensures made[i] == c.params[i] <==> IsFreed(c.params[i]) {
      assert made[i] == FreeFromComposite(rest[n + i]);
      assert rest[n + i] == Wrap(c.params[i]);
      FreeUndoesWrap(c.params[i]);
    }
  }

  lemma WordsReadBack(c: Command)
    ensures FromWords(Words(c)) == c <==> ReadsBack(c)
  {
    OptionsReadBack(c);
    forall i | 0 <= i < |c.options| && IsFreed(c.options[i]) ensures !HasLineBreak(c.options[i]) {
      assert HasLineBreak(c.options[i]) ==> HasSpace(c.options[i]);
    }
    if |FromWords(Words(c)).options| == |c.options| {
      FreeUndoesWrap(c.name);
      FreedOptions(c);
      FreedParams(c);
    }
  }

  lemma TokensFreed(c: Command)
    ensures (forall i :: 0 <= i < |Tokens(c)| ==> IsFreed(Tokens(c)[i])) <==>
            && IsFreed(c.name)
            && (forall i :: 0 <= i < |c.options| ==> IsFreed(c.options[i]))
            && (forall i :: 0 <= i < |c.params| ==> IsFreed(c.params[i]))
  {
    var tokens := Tokens(c);
    if forall i :: 0 <= i < |tokens| ==> IsFreed(tokens[i]) {
      assert tokens[0] == c.name;
      assert forall i :: 0 <= i < |c.options| ==> c.options[i] == tokens[1 + i];
      assert forall i :: 0 <= i < |c.params| ==> c.params[i] == tokens[1 + |c.options| + i];
    }
  }

  // Whatever words make the command may be read for its printed words
  lemma MakersMayBeRead(c: Command, args: seq<string>)
    requires args != [] && FromWords(args) == c
    ensures AllMayRead(args, Words(c))
  {
    var words, rest := Words(c), args[1..];
    var n := LeadingOptions(rest);
    LeadingOptionWords(rest);
    assert |words| == 1 + |c.options| + |c.params| == |args| && |c.options| == n;
    forall i | 0 <= i < |args| ensures MayRead(args[i], words[i]) {
      if i == 0 {
        FreedMayBeRead(args[0], c.name);
      } else if i <= n {
        assert args[i] == rest[i - 1] && words[i] == "-" + Wrap(c.options[i - 1]);
        FreedOptionMayBeRead(args[i], c.options[i - 1]);
      } else {
        assert args[i] == rest[n + (i - 1 - n)] && words[i] == Wrap(c.params[i - 1 - n]);
        FreedMayBeRead(args[i], c.params[i - 1 - n]);
      }
    }
  }

  lemma PrintableMeans(c: Command)
    ensures IsPrintable(c) <==> NoneEmpty(Words(c)) && KeepApart(Words(c)) && ReadsBack(c)
  {
    NoEmptyWord(c);
    WordsKeepApart(c);
    TokensFreed(c);
  }

  /** Reading what was printed gives the command back exactly when it is printable, whatever characters
      its tokens hold: no other words than the printed ones could be read for the same command. */
  lemma InterpretUndoesPrint(c: Command)
    ensures Interpreted(Joined(Words(c))) == Some(c) <==> IsPrintable(c)
  {
    var words, args := Words(c), SplitFrom(Joined(Words(c)));
    WordsStartWell(c);
    SplitJoined(words);
    WordsReadBack(c);
    PrintableMeans(c);
    if args != [] && FromWords(args) == c {
      MakersMayBeRead(c, args);
      ReadAsPrinted(words);
    }
  }

  // ---------- Different commands are printed differently ----------

  // The words of the printed command can be told apart: none is empty or broken by white space, brackets
  // are balanced in all but the last, and the first parameter is not taken for an option
  ghost predicate IsDecodable(c: Command) {
    && c.name != "" && NoneEmpty(c.params)
    && (forall i :: 0 <= i < |Tokens(c)| ==> HasSpace(Tokens(c)[i]) ==> Unbroken(Tokens(c)[i], 1))
    && (forall i :: 0 <= i < |Tokens(c)| - 1 ==> Balance(Tokens(c)[i]) == 0)
    && (c.params != [] ==> !LooksLikeOption(c.params[0]))
  }

  lemma WordsAreRead(c: Command)
    requires IsDecodable(c)
    ensures SplitFrom(Joined(Words(c))) == Words(c)
  {
    WordsStartWell(c);
    NoEmptyWord(c);
    WordsKeepApart(c);
    SplitJoined(Words(c));
  }

  lemma WrapIsInjective(s: string, t: string)
    requires Wrap(s) == Wrap(t)
    ensures s == t
  {
    WrapKeepsSpace(s);
    WrapKeepsSpace(t);
    if HasSpace(s) {
      assert Wrap(s)[1..|s| + 1] == s && Wrap(t)[1..|t| + 1] == t;
    }
  }

  lemma WrapKeepsSpace(t: string)
    ensures HasSpace(Wrap(t)) == HasSpace(t)
  {
    if HasSpace(t) {
      var c :| c in t && IsSpace(c);
      assert c in Wrap(t);
    }
  }

  lemma NoMoreOptions(c: Command, d: Command)
    requires Words(c) == Words(d) && (c.params != [] ==> !LooksLikeOption(c.params[0]))
    ensures |d.options| <= |c.options|
  {
    assert forall i :: 1 <= i <= |d.options| ==> Words(d)[i] != "" && Words(d)[i][0] == '-';
    assert c.params != [] ==> Words(c)[1 + |c.options|] == Wrap(c.params[0]);
  }

  lemma WordsDetermine(c: Command, d: Command)
    requires Words(c) == Words(d) && |c.options| == |d.options|
    ensures c == d
  {
    var n := 1 + |c.options|;
    assert |Words(c)| == n + |c.params| && |Words(d)| == n + |d.params|;
    assert Words(c)[0] == Wrap(c.name) && Words(d)[0] == Wrap(d.name);
    WrapIsInjective(c.name, d.name);
    forall i | 0 <= i < |c.options| ensures c.options[i] == d.options[i] {
      assert Words(c)[1 + i] == "-" + Wrap(c.options[i]) && Words(d)[1 + i] == "-" + Wrap(d.options[i]);
      assert Words(c)[1 + i][1..] == Wrap(c.options[i]) && Words(d)[1 + i][1..] == Wrap(d.options[i]);
      WrapIsInjective(c.options[i], d.options[i]);
    }
    forall i | 0 <= i < |c.params| ensures c.params[i] == d.params[i] {
      assert Words(c)[n + i] == Wrap(c.params[i]) && Words(d)[n + i] == Wrap(d.params[i]);
      WrapIsInjective(c.params[i], d.params[i]);
    }
  }

  /** Two commands whose words can be told apart are printed alike only if they are the same, whether or
      not the interpreter frees their tokens: line breaks and enclosing tokens do no harm. */
  lemma PrintIsInjective(c: Command, d: Command)
    requires IsDecodable(c) && IsDecodable(d)
    requires Joined(Words(c)) == Joined(Words(d))
    ensures c == d
  {
    WordsAreRead(c);
    WordsAreRead(d);
    NoMoreOptions(c, d);
    NoMoreOptions(d, c);
    WordsDetermine(c, d);
  }

  /** A command is printable exactly when it can be decoded and each token is freed to itself. */
  lemma PrintableIsDecodable(c: Command)
    ensures IsPrintable(c) <==> IsDecodable(c) && forall i :: 0 <= i < |Tokens(c)| ==> IsFreed(Tokens(c)[i])
  {
  }

  // ---------- Tokens without brackets ----------

  predicate IsPlain(token: string) {
    forall c :: c in token ==> c != '<' && c != '>'
  }

  lemma {:induction false} PlainIsBalanced(s: string, depth: int)
    requires IsPlain(s)
    ensures Balance(s) == 0 && !Encloses(s)
    ensures depth != 0 ==> Unbroken(s, depth)
  {
    if s != "" {
      assert s[0] in s && forall c :: c in s[1..] ==> c in s;
      PlainIsBalanced(s[1..], depth);
      EnclosesFirst(s);
    }
  }

  /** Without brackets in its tokens a command is printable exactly when name and parameters are not
      empty, no token has a line break, and the first parameter does not look like an option. */
  lemma PrintableWithoutBrackets(c: Command)
    requires forall i :: 0 <= i < |Tokens(c)| ==> IsPlain(Tokens(c)[i])
    ensures IsPrintable(c) <==>
            && c.name != "" && NoneEmpty(c.params)
            && (forall i :: 0 <= i < |Tokens(c)| ==> !HasLineBreak(Tokens(c)[i]))
            && (c.params != [] ==> !LooksLikeOption(c.params[0]))
  {
    forall i | 0 <= i < |Tokens(c)|
      ensures Balance(Tokens(c)[i]) == 0 && (IsReadable(Tokens(c)[i]) <==> !HasLineBreak(Tokens(c)[i]))
    {
      PlainIsBalanced(Tokens(c)[i], 1);
      assert HasLineBreak(Tokens(c)[i]) ==> HasSpace(Tokens(c)[i]);
    }
  }

  lemma PlainIsDecodable(c: Command)
    requires c.name != "" && NoneEmpty(c.params) && (c.params != [] ==> !LooksLikeOption(c.params[0]))
    requires forall i :: 0 <= i < |Tokens(c)| ==> IsPlain(Tokens(c)[i])
    ensures IsDecodable(c)
  {
    forall i | 0 <= i < |Tokens(c)| ensures Balance(Tokens(c)[i]) == 0 && Unbroken(Tokens(c)[i], 1) {
      PlainIsBalanced(Tokens(c)[i], 1);
    }
  }

  /** In particular building is uniquely decodable for commands without brackets, whatever else their
      tokens hold, if no name or parameter is empty and the first parameter does not look like an option. */
  lemma BuildIsUniquelyDecodable(c: Command, d: Command)
    requires forall i :: 0 <= i < |Tokens(c)| ==> IsPlain(Tokens(c)[i])
    requires forall i :: 0 <= i < |Tokens(d)| ==> IsPlain(Tokens(d)[i])
    requires c.name != "" && NoneEmpty(c.params) && (c.params != [] ==> !LooksLikeOption(c.params[0]))
    requires d.name != "" && NoneEmpty(d.params) && (d.params != [] ==> !LooksLikeOption(d.params[0]))
    ensures Joined(Words(c)) == Joined(Words(d)) <==> c == d
  {
    PlainIsDecodable(c);
    PlainIsDecodable(d);
    if Joined(Words(c)) == Joined(Words(d)) {
      PrintIsInjective(c, d);
    }
  }

  /** The documented notation: options after a dash, a parameter with white space in angle brackets, all
      separated by spaces. */
  lemma Notation(name: string, opt: string, param: string, spaced: string)
    requires !HasSpace(name) && !HasSpace(opt) && !HasSpace(param) && HasSpace(spaced)
    ensures Joined(Words(Command(name, [opt], [param, spaced]))) ==
            name + " -" + opt + " " + param + " <" + spaced + ">"
  {
    var words := Words(Command(name, [opt], [param, spaced]));
    assert words == [name] + ["-" + opt] + [param] + ["<" + spaced + ">"];
    JoinedSnoc([name], "-" + opt);
    JoinedSnoc([name] + ["-" + opt], param);
    JoinedSnoc([name] + ["-" + opt] + [param], "<" + spaced + ">");
    assert name + " " + ("-" + opt) == name + " -" + opt;
    var start := name + " -" + opt + " " + param;
    assert start + " " + ("<" + spaced + ">") == start + " <" + spaced + ">";
  }
}
