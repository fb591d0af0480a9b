/**
 The stripped options as text: the separators, the prefix taken out and the shape of the result
 are spelled out, and no other text of that shape has the kept tokens.
 */
module OptionsText {
  import opened Wrappers
  import opened Options

  /** How the tokenizer sees a text: these three equations determine it. */
  lemma TokensEquations(a: string, c: char, b: string)
    ensures Tokens("") == []
    ensures a != "" && (forall i | 0 <= i < |a| :: a[i] !in "&;, \t\r\n") ==> Tokens(a) == [a]
    ensures c in "&;, \t\r\n" ==> Tokens(a + [c] + b) == Tokens(a) + Tokens(b)
  {
    hide Tokens;
    TokensEmpty();
    if a != "" && forall i | 0 <= i < |a| :: a[i] !in "&;, \t\r\n" {
      TokenIsItself(a);
    }
    if c in "&;, \t\r\n" {
      TokensSplit(a, c, b);
    }
  }

  /** Which tokens are taken out. */
  lemma KeptEquations(ts: seq<string>, t: string)
    ensures Kept([]) == []
    ensures Kept(ts + [t]) == if |t| >= 5 && t[..5] == "mode=" then Kept(ts) else Kept(ts) + [t]
  {
    hide Kept;
    KeptEmpty();
    KeptSnoc(ts, t);
    assert Kept(ts) + [] == Kept(ts);
    assert IsMode(t) <==> |t| >= 5 && t[..5] == "mode=";
  }

  /** Entries separated by single semicolons, and nothing else between or around them. */
  predicate Clean(r: string) {
    && r != "" && r[0] != ';' && r[|r| - 1] != ';'
    && (forall i | 0 <= i < |r| :: !Unused(r[i]))
    && (forall i | 0 <= i < |r| - 1 :: r[i] != ';' || r[i + 1] != ';')
  }

  predicate Unused(c: char) {
    c in "&, \t\r\n"
  }

  lemma Semicolon(c: char)
    requires IsSeparator(c) && !Unused(c)
    ensures c == ';'
  {
  }

  lemma CleanStart(r: string)
    requires Clean(r)
    ensures
      var n := TokenLength(r);
      && n > 0 && (n < |r| ==> r[n] == ';' && n + 1 < |r| && Clean(r[n + 1..]))
  {
    hide Clean, Unused, TokenLength, IsSeparator;
    var n := TokenLength(r);
    CleanToken(r);
    if n < |r| {
      CleanAt(r, n);
      Semicolon(r[n]);
      CleanRest(r, n);
    }
  }

  lemma CleanAt(r: string, i: nat)
    requires Clean(r) && i < |r|
    ensures !Unused(r[i])
  {
    hide Unused;
  }

  lemma CleanRest(r: string, n: nat)
    requires Clean(r) && n < |r| && r[n] == ';'
    ensures n + 1 < |r| && Clean(r[n + 1..])
  {
    hide Unused;
    var rest := r[n + 1..];
    assert forall i | 0 <= i < |rest| :: rest[i] == r[n + 1 + i];
    forall i | 0 <= i < |rest| - 1
      ensures rest[i] != ';' || rest[i + 1] != ';'
    {
      var j := n + 1 + i;
      assert r[j] != ';' || r[j + 1] != ';';
    }
  }

  lemma {:induction false} JoinCons(t: string, ts: seq<string>)
    requires ts != []
    ensures Join([t] + ts) == t + ";" + Join(ts)
  {
    hide Join;
    var front, last := ts[..|ts| - 1], ts[|ts| - 1];
    JoinSnoc([t] + front, last);
    JoinSnoc(front, last);
    assert ts == front + [last];
    assert [t] + ts == [t] + front + [last];
    if front == [] {
      assert [t] + front == [t];
      JoinOne(t);
    } else {
      JoinCons(t, front);
      Associates(t + ";", Join(front), ";" + last);
      Associates(Join(front), ";", last);
      Associates(t + ";" + Join(front), ";", last);
    }
  }

  lemma Associates(a: string, b: string, c: string)
    ensures a + (b + c) == a + b + c
  {
  }

  /** A clean text is the join of its tokens. */
  lemma {:induction false} JoinTokens(r: string)
    requires Clean(r)
    ensures Tokens(r) != [] && Join(Tokens(r)) == r
    decreases |r|
  {
    hide Clean, Join, Tokens, TokenLength;
    CleanStart(r);
    CleanToken(r);
    var n := TokenLength(r);
    FirstToken(r);
    if n == |r| {
      TokensEmpty();
      assert r[..n] == r && r[n..] == "" && [r] + [] == [r];
      JoinOne(r);
    } else {
      var rest := r[n + 1..];
      JoinTokens(rest);
      AfterSemicolon(r[n..]);
      assert r[n..][1..] == rest;
      JoinCons(r[..n], Tokens(rest));
      assert r == r[..n] + ";" + rest;
    }
  }

  lemma FirstToken(s: string)
    requires s != "" && !IsSeparator(s[0])
    ensures Tokens(s) == [s[..TokenLength(s)]] + Tokens(s[TokenLength(s)..])
  {
    hide IsSeparator;
  }

  lemma AfterSemicolon(s: string)
    requires s != "" && s[0] == ';'
    ensures Tokens(s) == Tokens(s[1..])
  {
  }

  lemma CleanToken(r: string)
    requires Clean(r)
    ensures r != "" && !IsSeparator(r[0])
  {
  }

  lemma JoinOne(t: string)
    ensures Join([t]) == t
  {
  }

  lemma {:induction false} JoinClean(ts: seq<string>)
    requires AllTokens(ts) && ts != []
    ensures Clean(Join(ts))
  {
    var k := |ts| - 1;
    if k == 0 {
      TokenClean(ts[0]);
    } else {
      JoinClean(ts[..k]);
      TokenClean(ts[k]);
      CleanConcat(Join(ts[..k]), ts[k]);
    }
  }

  lemma TokenClean(t: string)
    requires IsToken(t)
    ensures Clean(t) && forall i | 0 <= i < |t| :: t[i] != ';'
  {
    assert forall i | 0 <= i < |t| :: !IsSeparator(t[i]);
  }

  lemma CleanConcat(a: string, b: string)
    requires Clean(a) && Clean(b)
    ensures Clean(a + ";" + b)
  {
    var r := a + ";" + b;
    forall i | 0 <= i < |r| - 1
      ensures r[i] != ';' || r[i + 1] != ';'
    {
      if i == |a| - 1 {
        assert r[i] == a[i];
      } else if i == |a| {
        assert r[i + 1] == b[0];
      }
    }
  }

  /** The result is the one clean text whose tokens are the kept ones. */
  lemma StrippedUnique(opts: string, r: string)
    ensures Stripped(Some(opts)) == Some(r) <==> Clean(r) && Tokens(r) == Kept(Tokens(opts))
    ensures Stripped(None) == None
  {
    hide Tokens, Kept, Join, Clean;
    var kept := Kept(Tokens(opts));
    TokensAreTokens(opts);
    KeptTokens(Tokens(opts));
    JoinEmpty(kept);
    TokensJoin(kept);
    if kept != [] {
      JoinClean(kept);
    }
    if Clean(r) {
      JoinTokens(r);
    }
  }
}
