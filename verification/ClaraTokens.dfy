/** The token stream of lib/clara.hpp: a lazily filled buffer over the command line. */
module ClaraTokens {

  datatype TokenKind = Option | Argument

  datatype Token = Token(kind: TokenKind, text: string)

  predicate IsOptPrefix(c: char) { c == '-' }

  predicate IsDelimiter(c: char) { c in " :=" }

  /** find_first_of: the first delimiter at or after `from`, or the length. */
  function FindDelimiter(s: string, from: nat): (d: nat)
    requires from <= |s|
    ensures from <= d <= |s| && (d < |s| ==> IsDelimiter(s[d]))
    ensures forall k | from <= k < d :: !IsDelimiter(s[k])
    decreases |s| - from
  {
    if from == |s| || IsDelimiter(s[from]) then from else FindDelimiter(s, from + 1)
  }

  /** One option per character of a bundle of short flags. */
  function Bundle(next: string, i: nat): seq<Token>
    requires i <= |next|
    decreases |next| - i
  {
    if i == |next| then [] else [Token(Option, ['-', next[i]])] + Bundle(next, i + 1)
  }

  /** The tokens one command-line argument stands for. */
  function TokensOf(next: string): (tokens: seq<Token>)
    requires next != ""
    ensures tokens != []
  {
    if IsOptPrefix(next[0]) then
      var d := FindDelimiter(next, 0);
      if d < |next| then [Token(Option, next[..d]), Token(Argument, next[d + 1..])]
      else if |next| > 2 && next[1] != '-' then Bundle(next, 1)
      else [Token(Option, next)]
    else [Token(Argument, next)]
  }

  /** The tokens of all arguments; empty arguments stand for nothing. */
  function Flat(args: seq<string>): seq<Token> {
    if args == [] then []
    else (if args[0] == "" then [] else TokensOf(args[0])) + Flat(args[1..])
  }

  lemma FlatAt(args: seq<string>, i: nat)
    requires i <= |args|
    ensures i == |args| ==> Flat(args[i..]) == []
    ensures i < |args| ==>
              Flat(args[i..]) == (if args[i] == "" then [] else TokensOf(args[i])) + Flat(args[i + 1..])
  {
    if i < |args| {
      assert args[i..][1..] == args[i + 1..];
    }
  }

  lemma {:induction false} BundleAppend(next: string, i: nat, k: nat)
    requires i <= k < |next|
    ensures Bundle(next[..k + 1], i) == Bundle(next[..k], i) + [Token(Option, ['-', next[k]])]
    decreases k - i
  {
    if i < k {
      BundleAppend(next, i + 1, k);
      assert next[..k + 1][i] == next[i] == next[..k][i];
    } else {
      assert Bundle(next[..k + 1], k + 1) == [] && Bundle(next[..k], k) == [];
    }
  }

  // ---------------------------------------------------------------- the forms an option may take

  lemma {:induction false} FirstDelimiterIs(s: string, from: nat, k: nat)
    requires from <= k < |s| && IsDelimiter(s[k]) && forall j | from <= j < k :: !IsDelimiter(s[j])
    ensures FindDelimiter(s, from) == k
    decreases k - from
  {
    if from < k {
      FirstDelimiterIs(s, from + 1, k);
    }
  }

  /** "-x v", "-x:v" and "-x=v" all read as an option followed by its argument, whatever the argument holds. */
  lemma OptionWithArgument(name: string, delimiter: char, value: string)
    requires name != "" && name[0] == '-' && IsDelimiter(delimiter)
    requires forall k | 0 <= k < |name| :: !IsDelimiter(name[k])
    ensures TokensOf(name + [delimiter] + value) == [Token(Option, name), Token(Argument, value)]
  {
    var next := name + [delimiter] + value;
    assert forall k | 0 <= k < |name| :: next[k] == name[k];
    FirstDelimiterIs(next, 0, |name|);
    assert next[..|name|] == name && next[|name| + 1..] == value;
  }

  lemma {:induction false} BundleAt(next: string, i: nat, k: nat)
    requires i <= |next| && i + k < |next|
    ensures |Bundle(next, i)| == |next| - i && Bundle(next, i)[k] == Token(Option, ['-', next[i + k]])
    decreases |next| - i
  {
    if i + 1 < |next| {
      BundleAt(next, i + 1, if k == 0 then 0 else k - 1);
    } else {
      assert Bundle(next, i + 1) == [];
    }
  }

  /** "-abc" reads as "-a", "-b", "-c". */
  lemma BundledFlags(flags: string, k: nat)
    requires |flags| >= 2 && flags[0] != '-' && k < |flags|
    requires forall j | 0 <= j < |flags| :: !IsDelimiter(flags[j])
    ensures |TokensOf("-" + flags)| == |flags| && TokensOf("-" + flags)[k] == Token(Option, ['-', flags[k]])
  {
    var next := "-" + flags;
    assert forall j | 0 <= j < |next| :: !IsDelimiter(next[j]) by {
      assert forall j | 0 < j < |next| :: next[j] == flags[j - 1];
    }
    BundleAt(next, 1, k);
  }

  // ---------------------------------------------------------------- whole command lines

  /** A text without a blank, a colon or an equals sign. */
  predicate Undelimited(s: string) { ' ' !in s && ':' !in s && '=' !in s }

  lemma {:induction false} NoDelimiter(s: string, from: nat)
    requires from <= |s|
    ensures Undelimited(s[from..]) <==> FindDelimiter(s, from) == |s|
    decreases |s| - from
  {
    if from < |s| {
      assert s[from..] == [s[from]] + s[from + 1..];
      NoDelimiter(s, from + 1);
    }
  }

  lemma FlatOne(arg: string)
    ensures Flat([arg]) == if arg == "" then [] else TokensOf(arg)
  {
    hide TokensOf;
    assert Flat([]) == [];
    assert [arg][1..] == [];
  }

  /** What one argument reads as: nothing if it is empty; a word stands for itself; one that starts with a minus sign
      is an option, with its argument behind the first delimiter, or a bundle of short flags. */
  lemma ArgumentForms(arg: string)
    ensures var read := Flat([arg]);
      && (arg == "" ==> read == [])
      && (arg != "" && arg[0] != '-' ==> read == [Token(Argument, arg)])
      && (arg != "" && arg[0] == '-' ==> read != [] && read[0].kind.Option?)
      && (forall k | 0 < k < |arg| && arg[0] == '-' && Undelimited(arg[..k]) && !Undelimited([arg[k]]) ::
            read == [Token(Option, arg[..k]), Token(Argument, arg[k + 1..])])
      && (arg != "" && arg[0] == '-' && Undelimited(arg) ==>
            read == if |arg| <= 2 || arg[1] == '-' then [Token(Option, arg)]
                    else seq(|arg| - 1, i requires 0 <= i < |arg| - 1 => Token(Option, ['-', arg[i + 1]])))
  {
    FlatOne(arg);
    if arg != "" && arg[0] == '-' {
      forall k | 0 < k < |arg| && Undelimited(arg[..k]) && !Undelimited([arg[k]])
        ensures TokensOf(arg) == [Token(Option, arg[..k]), Token(Argument, arg[k + 1..])]
      {
        forall j | 0 <= j < k ensures !IsDelimiter(arg[j]) { assert arg[..k][j] == arg[j]; }
        FirstDelimiterIs(arg, 0, k);
      }
      assert arg[0..] == arg;
      NoDelimiter(arg, 0);
      if Undelimited(arg) && |arg| > 2 && arg[1] != '-' {
        assert TokensOf(arg) == Bundle(arg, 1);
        BundleAt(arg, 1, 0);
        forall i | 0 <= i < |arg| - 1 ensures Bundle(arg, 1)[i] == Token(Option, ['-', arg[i + 1]]) {
          BundleAt(arg, 1, i);
        }
      }
      if FindDelimiter(arg, 0) == |arg| && |arg| > 2 && arg[1] != '-' { BundleAt(arg, 1, 0); }
    }
  }

  /** The tokens of a command line are those of its arguments, in order. */
  lemma {:induction false} FlatAppend(a: seq<string>, b: seq<string>)
    ensures Flat(a + b) == Flat(a) + Flat(b)
  {
    hide TokensOf;
    if a == [] {
      assert a + b == b;
    } else {
      assert (a + b)[1..] == a[1..] + b;
      FlatAppend(a[1..], b);
    }
  }

  function WordTokens(args: seq<string>): seq<Token> {
    if args == [] then [] else (if args[0] == "" then [] else [Token(Argument, args[0])]) + WordTokens(args[1..])
  }

  /** A command line of words reads as exactly its non-empty words, in order. */
  lemma {:induction false} WordsStandForThemselves(args: seq<string>)
    requires forall i | 0 <= i < |args| :: args[i] == "" || args[i][0] != '-'
    ensures Flat(args) == WordTokens(args)
  {
    hide TokensOf;
    if args != [] {
      ArgumentForms(args[0]);
      FlatAppend([args[0]], args[1..]);
      assert [args[0]] + args[1..] == args;
      assert forall i | 0 <= i < |args[1..]| :: args[1..][i] == args[i + 1];
      WordsStandForThemselves(args[1..]);
    }
  }

  class TokenStream {
    const args: seq<string>
    var it: nat
    var tokenBuffer: seq<Token>

    /** `it` is at the argument whose remaining tokens are buffered; nothing is buffered only at the end. */
    ghost predicate Valid()
      reads this
    {
      it <= |args| && (tokenBuffer == [] <==> it == |args|)
    }

    /** The tokens still to come. */
    ghost function Remaining(): seq<Token>
      requires Valid()
      reads this
    {
      tokenBuffer + if it < |args| then Flat(args[it + 1..]) else []
    }

    constructor (args: seq<string>)
      ensures Valid() && this.args == args && Remaining() == Flat(args)
    {
      this.args := args;
      it := 0;
      tokenBuffer := [];
      new;
      assert args[0..] == args;
      LoadBuffer();
    }

    constructor Copy(other: TokenStream)
      requires other.Valid()
      ensures Valid() && Remaining() == other.Remaining()
    {
      args := other.args;
      it := other.it;
      tokenBuffer := other.tokenBuffer;
    }

    method LoadBuffer()
      requires it <= |args|
      modifies this
      ensures Valid() && Remaining() == Flat(args[old(it)..]) && it >= old(it)
    {
      hide Flat, TokensOf;
      tokenBuffer := [];
      SkipEmpty();
      FlatAt(args, it);
      if it != |args| {
        LoadArgument(args[it]);
      }
    }

    /** Skips any empty strings. */
    method SkipEmpty()
      requires it <= |args|
      modifies this`it
      ensures old(it) <= it <= |args| && Flat(args[it..]) == Flat(args[old(it)..])
      ensures it < |args| ==> args[it] != ""
    {
      hide Flat, TokensOf;
      while it != |args| && args[it] == ""
        invariant old(it) <= it <= |args|
        invariant Flat(args[it..]) == Flat(args[old(it)..])
        decreases |args| - it
      {
        FlatAt(args, it);
        it := it + 1;
      }
    }

    method LoadArgument(next: string)
      requires next != "" && tokenBuffer == []
      modifies this`tokenBuffer
      ensures tokenBuffer == TokensOf(next)
    {
      if IsOptPrefix(next[0]) {
        var delimiterPos := FindDelimiter(next, 0);
        if delimiterPos != |next| {
          tokenBuffer := tokenBuffer + [Token(Option, next[..delimiterPos])];
          tokenBuffer := tokenBuffer + [Token(Argument, next[delimiterPos + 1..])];
        } else if |next| > 2 && next[1] != '-' {
          LoadBundle(next);
        } else {
          tokenBuffer := tokenBuffer + [Token(Option, next)];
        }
      } else {
        tokenBuffer := tokenBuffer + [Token(Argument, next)];
      }
    }

    method LoadBundle(next: string)
      requires 1 <= |next| && tokenBuffer == []
      modifies this`tokenBuffer
      ensures tokenBuffer == Bundle(next, 1)
    {
      assert Bundle(next[..1], 1) == [];
      for i := 1 to |next|
        invariant tokenBuffer == Bundle(next[..i], 1)
      {
        BundleAppend(next, 1, i);
        tokenBuffer := tokenBuffer + [Token(Option, ['-', next[i]])];
      }
      assert next[..|next|] == next;
    }

    /** operator bool */
    method HasMore() returns (more: bool)
      requires Valid()
      ensures more <==> Remaining() != []
    {
      more := tokenBuffer != [] || it != |args|;
    }

    /** operator*; the caller must know that a token is left. */
    method Front() returns (token: Token)
      requires Valid() && Remaining() != []
      ensures token == Remaining()[0]
    {
      token := tokenBuffer[0];
    }

    /** operator++ */
    method Advance()
      requires Valid()
      modifies this
      ensures Valid()
      ensures old(Remaining()) == [] ==> Remaining() == []
      ensures old(Remaining()) != [] ==> Remaining() == old(Remaining())[1..]
      ensures old(Remaining()) != [] ==>
                |args| - it < old(|args| - it) || (it == old(it) && |tokenBuffer| < |old(tokenBuffer)|)
    {
      hide Flat, TokensOf;
      if |tokenBuffer| >= 2 {
        tokenBuffer := tokenBuffer[1..];
      } else {
        if it != |args| {
          it := it + 1;
        }
        ghost var rest := Flat(args[it..]);
        FlatAt(args, it);
        LoadBuffer();
        assert old(tokenBuffer) != [] ==> old(Remaining()) == old(tokenBuffer) + rest;
      }
    }
  }
}
