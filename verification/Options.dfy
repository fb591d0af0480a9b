/**
 `native_options_without_mode` of the JNI bridge: the connection options with the
 ones that start with "mode=" taken out. Texts are C strings without their NUL.
 */
module Options {
  import opened Wrappers

  predicate IsSeparator(c: char) {
    c == '&' || c == ';' || c == ',' || c == ' ' || c == '\t' || c == '\r' || c == '\n'
  }

  predicate IsToken(t: string) {
    t != "" && forall i | 0 <= i < |t| :: !IsSeparator(t[i])
  }

  /** The length of the longest separator-free prefix. */
  function TokenLength(s: string): (n: nat)
    ensures n <= |s| && (forall i | 0 <= i < n :: !IsSeparator(s[i]))
    ensures n < |s| ==> IsSeparator(s[n])
  {
    if s == "" || IsSeparator(s[0]) then 0 else 1 + TokenLength(s[1..])
  }

  /** The maximal separator-free substrings, in order. */
  function Tokens(s: string): seq<string>
    decreases |s|
  {
    if s == "" then [] else if IsSeparator(s[0]) then Tokens(s[1..])
    else var n := TokenLength(s); [s[..n]] + Tokens(s[n..])
  }

  predicate IsMode(t: string) {
    "mode=" <= t
  }

  function Kept(tokens: seq<string>): seq<string> {
    if tokens == [] then [] else (if IsMode(tokens[0]) then [] else [tokens[0]]) + Kept(tokens[1..])
  }

  function Join(tokens: seq<string>): string {
    if tokens == [] then ""
    else if |tokens| == 1 then tokens[0]
    else Join(tokens[..|tokens| - 1]) + ";" + tokens[|tokens| - 1]
  }

  /** The options that remain; nothing is returned when none do. */
  function Stripped(opts: Option<string>): Option<string> {
    if opts.None? then None else
      var text := Join(Kept(Tokens(opts.value)));
      if text == "" then None else Some(text)
  }

  // The tokenizer

  lemma {:induction false} TokensSplit(a: string, c: char, b: string)
    requires IsSeparator(c)
    ensures Tokens(a + [c] + b) == Tokens(a) + Tokens(b)
    decreases |a|
  {
    var s := a + [c] + b;
    if a == "" {
      assert s[1..] == b;
    } else if IsSeparator(a[0]) {
      assert s[1..] == a[1..] + [c] + b;
      TokensSplit(a[1..], c, b);
    } else {
      var n := TokenLength(a);
      TokenLengthPrefix(a, [c] + b);
      assert s == a + ([c] + b);
      assert s[..n] == a[..n] && s[n..] == a[n..] + [c] + b;
      TokensSplit(a[n..], c, b);
    }
  }

  /** Appending text that starts with a separator does not change the first token. */
  lemma {:induction false} TokenLengthPrefix(a: string, rest: string)
    requires rest != "" && IsSeparator(rest[0])
    ensures TokenLength(a + rest) == TokenLength(a)
  {
    if a == "" || IsSeparator(a[0]) {
    } else {
      assert (a + rest)[1..] == a[1..] + rest;
      TokenLengthPrefix(a[1..], rest);
    }
  }

  lemma TokenIsItself(t: string)
    requires IsToken(t)
    ensures Tokens(t) == [t]
  {
    assert TokenLength(t) == |t|;
    assert t[..|t|] == t && t[|t|..] == "";
  }

  ghost predicate AllTokens(ts: seq<string>) {
    forall i | 0 <= i < |ts| :: IsToken(ts[i])
  }

  lemma {:induction false} TokensAreTokens(s: string)
    ensures AllTokens(Tokens(s))
    decreases |s|
  {
    if s == "" {
    } else {
      if IsSeparator(s[0]) {
        TokensAreTokens(s[1..]);
      } else {
        TokensAreTokens(s[TokenLength(s)..]);
      }
    }
  }

  lemma {:induction false} KeptTokens(ts: seq<string>)
    requires AllTokens(ts)
    ensures AllTokens(Kept(ts)) && (forall i | 0 <= i < |Kept(ts)| :: !IsMode(Kept(ts)[i]))
    ensures Kept(Kept(ts)) == Kept(ts)
  {
    if ts == [] {
    } else {
      KeptTokens(ts[1..]);
      var k := Kept(ts[1..]);
      if IsMode(ts[0]) {
        assert [] + k == k;
      } else {
        assert ([ts[0]] + k)[1..] == k;
      }
    }
  }

  /** Tokenizing joined tokens gives the tokens back. */
  lemma {:induction false} TokensJoin(ts: seq<string>)
    requires AllTokens(ts)
    ensures Tokens(Join(ts)) == ts
  {
    if |ts| == 1 {
      TokenIsItself(ts[0]);
    } else if |ts| > 1 {
      var k := |ts| - 1;
      TokensJoin(ts[..k]);
      TokenIsItself(ts[k]);
      TokensSplit(Join(ts[..k]), ';', ts[k]);
      assert ts == ts[..k] + [ts[k]];
    }
  }

  lemma JoinEmpty(ts: seq<string>)
    requires AllTokens(ts)
    ensures Join(ts) == "" <==> ts == []
  {
  }

  /** The tokens of the result are the tokens of the input that do not start with "mode=". */
  lemma StrippedTokens(opts: string)
    ensures Stripped(Some(opts)) == None <==> Kept(Tokens(opts)) == []
    ensures Stripped(Some(opts)).Some? ==> Tokens(Stripped(Some(opts)).value) == Kept(Tokens(opts))
  {
    hide Tokens, Kept, Join;
    TokensAreTokens(opts);
    KeptTokens(Tokens(opts));
    JoinEmpty(Kept(Tokens(opts)));
    TokensJoin(Kept(Tokens(opts)));
  }

  /** Stripping twice is stripping once. */
  lemma StrippedIdempotent(opts: Option<string>)
    ensures Stripped(Stripped(opts)) == Stripped(opts)
  {
    hide Tokens, Kept, Join;
    if opts.Some? {
      StrippedTokens(opts.value);
      TokensAreTokens(opts.value);
      KeptTokens(Tokens(opts.value));
    }
  }

  lemma {:induction false} KeptSnoc(ts: seq<string>, t: string)
    ensures Kept(ts + [t]) == Kept(ts) + (if IsMode(t) then [] else [t])
  {
    if ts == [] {
      assert [] + [t] == [t];
    } else {
      assert (ts + [t])[1..] == ts[1..] + [t];
      KeptSnoc(ts[1..], t);
    }
  }

  lemma JoinSnoc(ts: seq<string>, t: string)
    ensures Join(ts + [t]) == if ts == [] then t else Join(ts) + ";" + t
  {
    assert (ts + [t])[..|ts|] == ts;
  }

  // The loop

  /** `native_options_without_mode`, with its output buffer of one byte more than the input. */
  method StripMode(opts: Option<string>) returns (r: Option<string>)
    ensures r == Stripped(opts)
  {
    hide Tokens, Kept, Join, TokenLength;
    if opts == None || opts.value == "" {
      StrippedEmpty();
      return None;
    }
    var s := opts.value;
    var len := |s|;
    var out := new char[len + 1];
    var outLen, cursor := 0, 0;
    ghost var done: seq<string> := [];
    KeptEmpty();
    assert s[0..] == s;
    while cursor < len
      invariant 0 <= outLen <= cursor <= len
      invariant outLen > 0 && cursor < len ==> IsSeparator(s[cursor])
      invariant AllTokens(Kept(done)) && done + Tokens(s[cursor..]) == Tokens(s)
      invariant out[..outLen] == Join(Kept(done))
    {
      cursor := SkipSeparators(s, cursor);
      if cursor == len {
        break;
      }
      var start := cursor;
      cursor := SkipToken(s, cursor);
      var entry := s[start..cursor];
      ghost var kept := Kept(done);
      KeptSnoc(done, entry);
      JoinSnoc(kept, entry);
      JoinEmpty(kept);
      assert kept + [] == kept;
      done := done + [entry];
      if !("mode=" <= entry) {
        outLen := AppendEntry(out, outLen, entry);
      }
    }
    TokensEmpty();
    assert s[len..] == "" && done + [] == done;
    assert out[..outLen] == Join(Kept(Tokens(s)));
    r := if outLen == 0 then None else Some(out[..outLen]);
    out[outLen] := '\0';
  }

  lemma StrippedEmpty()
    ensures Stripped(Some("")) == None
  {
  }

  lemma KeptEmpty()
    ensures Kept([]) == [] && Join([]) == ""
  {
  }

  lemma TokensEmpty()
    ensures Tokens("") == []
  {
  }

  /** A separator if the buffer holds something, then the entry. */
  method AppendEntry(out: array<char>, outLen: nat, entry: string) returns (end: nat)
    requires outLen + (if outLen == 0 then 0 else 1) + |entry| <= out.Length
    modifies out
    ensures end == outLen + (if outLen == 0 then 0 else 1) + |entry|
    ensures out[..end] == (if outLen == 0 then entry else old(out[..outLen]) + ";" + entry)
  {
    end := outLen;
    if end != 0 {
      out[end] := ';';
      end := end + 1;
    }
    CopyInto(out, end, entry);
    end := end + |entry|;
  }

  /** `memcpy`. */
  method CopyInto(out: array<char>, pos: nat, entry: string)
    requires pos + |entry| <= out.Length
    modifies out
    ensures out[..pos + |entry|] == old(out[..pos]) + entry
  {
    forall k | 0 <= k < |entry| {
      out[pos + k] := entry[k];
    }
  }

  method SkipSeparators(s: string, from: nat) returns (cursor: nat)
    requires from <= |s|
    ensures from <= cursor <= |s| && (cursor < |s| ==> !IsSeparator(s[cursor]))
    ensures from < |s| && IsSeparator(s[from]) ==> from < cursor
    ensures Tokens(s[cursor..]) == Tokens(s[from..])
  {
    cursor := from;
    while cursor < |s| && IsSeparator(s[cursor])
      invariant from <= cursor <= |s|
      invariant Tokens(s[cursor..]) == Tokens(s[from..])
    {
      assert s[cursor..][1..] == s[cursor + 1..];
      cursor := cursor + 1;
    }
  }

  method SkipToken(s: string, from: nat) returns (cursor: nat)
    requires from < |s| && !IsSeparator(s[from])
    ensures from < cursor <= |s| && (cursor < |s| ==> IsSeparator(s[cursor]))
    ensures IsToken(s[from..cursor])
    ensures Tokens(s[from..]) == [s[from..cursor]] + Tokens(s[cursor..])
  {
    cursor := from;
    while cursor < |s| && !IsSeparator(s[cursor])
      invariant from <= cursor <= |s|
      invariant forall i | from <= i < cursor :: !IsSeparator(s[i])
    {
      cursor := cursor + 1;
    }
    ghost var rest := s[from..];
    assert TokenLength(rest) == cursor - from by {
      assert cursor < |s| ==> IsSeparator(rest[cursor - from]);
    }
    assert rest[..cursor - from] == s[from..cursor] && rest[cursor - from..] == s[cursor..];
  }
}
