/** Formatted printing: a loop with two states over the format, against a recursive rendering of it. */
module Format {
  import opened Ints
  import opened Klib
  import opened Seqs

  /** An argument: an integer, or the address of a C string or a null pointer. */
  datatype Arg = Int(n: int) | Str(s: Option<string>)

  /** The character `i` of a C string. */
  function At(s: string, i: nat): char
  {
    if i < |s| then s[i] else '\0'
  }

  // ----- the meaning of a format

  predicate TakesArg(c: char)
  {
    c == 's' || c == 'd' || c == 'c' || c == 'x'
  }

  predicate Suits(c: char, a: Arg)
  {
    if c == 's' then a.Str? else a.Int? && INT_MIN <= a.n <= INT_MAX
  }

  /** What a specifier prints: a null string prints nothing, a character is the low byte of its argument. */
  function Shown(c: char, a: Arg): string
  {
    match a
    case Str(None) => []
    case Str(Some(s)) => Text(s)
    case Int(n) => if c == 'd' then Printed(n, 10) else if c == 'x' then Printed(n, 16) else [LowByte(n)]
  }

  function LowByte(n: int): char
  {
    (n % 256) as char
  }

  /** The arguments suit the specifiers, in order; there may be more of them. */
  predicate Matches(fmt: string, args: seq<Arg>)
    decreases |fmt|
  {
    if At(fmt, 0) == '\0' then true
    else if fmt[0] != '%' then Matches(fmt[1..], args)
    else if At(fmt, 1) == '\0' then true
    else if !TakesArg(fmt[1]) then Matches(fmt[2..], args)
    else args != [] && Suits(fmt[1], args[0]) && Matches(fmt[2..], args[1..])
  }

  /**
   * The text of a format: a specifier prints its argument; an unknown one prints nothing and takes no
   * argument; so does a `%` at the end.
   */
  function Render(fmt: string, args: seq<Arg>): string
    requires Matches(fmt, args)
    decreases |fmt|
  {
    if At(fmt, 0) == '\0' then []
    else if fmt[0] != '%' then [fmt[0]] + Render(fmt[1..], args)
    else if At(fmt, 1) == '\0' then []
    else if !TakesArg(fmt[1]) then Render(fmt[2..], args)
    else Shown(fmt[1], args[0]) + Render(fmt[2..], args[1..])
  }

  /**
   * Whether a NUL stands behind the text: printing a number leaves one there, anything printed later
   * overwrites it, and nothing else writes one. `nul` says whether there is one to start with.
   */
  predicate NulBehind(fmt: string, args: seq<Arg>, nul: bool)
    requires Matches(fmt, args)
    decreases |fmt|
  {
    if At(fmt, 0) == '\0' then nul
    else if fmt[0] != '%' then NulBehind(fmt[1..], args, false)
    else if At(fmt, 1) == '\0' then nul
    else if !TakesArg(fmt[1]) then NulBehind(fmt[2..], args, nul)
    else NulBehind(fmt[2..], args[1..], NulAfter(fmt[1], args[0], nul))
  }

  predicate NulAfter(c: char, a: Arg, nul: bool)
  {
    c == 'd' || c == 'x' || (nul && Shown(c, a) == [])
  }

  function Tail(nul: bool): string
  {
    if nul then ['\0'] else []
  }

  // ----- the loop

  /** Writing `r` where the text ends covers the NUL that may be there. */
  lemma PatchCover(c0: string, s: string, nul: bool, r: string)
    requires |s| + |r| <= |c0| && r != []
    ensures Patched(Patched(c0, 0, s + Tail(nul)), |s|, r) == Patched(c0, 0, s + r)
  {
    var c1 := Patched(c0, 0, s + Tail(nul));
    assert c1[..|s|] == s;
    assert c1[|s| + |r|..] == c0[|s| + |r|..];
  }

  lemma PatchOne(c: string, i: nat, d: char)
    requires i < |c|
    ensures c[i := d] == Patched(c, i, [d])
  {
  }

  method PutChar(buf: array<char>, p: nat, c: char, ghost c0: string, ghost out: string, ghost nul: bool)
    requires |out| == p < buf.Length == |c0| && |out + Tail(nul)| <= |c0| && buf[..] == Patched(c0, 0, out + Tail(nul))
    modifies buf
    ensures buf[..] == Patched(c0, 0, out + [c])
  {
    PatchCover(c0, out, nul, [c]);
    PatchOne(buf[..], p, c);
    buf[p] := c;
  }

  method PutNumber(num: int, b: int, buf: array<char>, p: nat, ghost c0: string, ghost out: string, ghost nul: bool)
    returns (p': nat)
    requires INT_MIN <= num <= INT_MAX && (b == 10 || b == 16) && |out + Tail(nul)| <= |c0|
    requires |out| == p && p + |Printed(num, b)| < buf.Length == |c0|
    requires buf[..] == Patched(c0, 0, out + Tail(nul))
    modifies buf
    ensures buf[..] == Patched(c0, 0, out + Printed(num, b) + ['\0']) && p' == p + |Printed(num, b)|
  {
    hide *;
    ghost var t := Printed(num, b);
    PatchCover(c0, out, nul, t + ['\0']);
    Itoa(num, buf, p, b);
    PrintedCanonical(num, b);
    TextPatched(c0, out, t);
    Associate(out, t, ['\0']);
    assert buf[p..] == buf[..][p..];
    var len := Strlen(Some(buf[p..]));
    p' := p + len;
  }

  /** The C string at the place where `t` and a NUL have been written. */
  lemma TextPatched(c0: string, s: string, t: string)
    requires |s| + |t| < |c0| && '\0' !in t
    ensures Text(Patched(c0, 0, s + (t + ['\0']))[|s|..]) == t
  {
    var c := Patched(c0, 0, s + (t + ['\0']))[|s|..];
    assert c == t + ['\0'] + c0[|s| + |t| + 1..];
    assert c[..|t|] == t;
    TextStops(c, |t|);
  }

  method PutString(s: Option<string>, buf: array<char>, p: nat, ghost c0: string, ghost out: string, ghost nul: bool)
    returns (p': nat)
    requires |out| == p && p + |Shown('s', Str(s))| <= buf.Length == |c0| && |out + Tail(nul)| <= |c0|
    requires buf[..] == Patched(c0, 0, out + Tail(nul))
    modifies buf
    ensures var t := Shown('s', Str(s));
            p' == p + |t| && buf[..] == Patched(c0, 0, out + t + Tail(nul && t == []))
  {
    var len := Strlen(s);
    ghost var t := Shown('s', Str(s));
    p' := p;
    var i := 0;
    TextPrefix(if s.None? then [] else s.value);
    while i < len
      invariant i <= len == |t| && p' == p + i
      invariant buf[..] == Patched(c0, 0, out + t[..i] + Tail(nul && i == 0))
    {
      hide Shown, Patched, Text;
      PutChar(buf, p', s.value[i], c0, out + t[..i], nul && i == 0);
      assert out + t[..i] + [t[i]] == out + t[..i + 1];
      p' := p' + 1;
      i := i + 1;
      assert out + t[..i] + Tail(false) == out + t[..i];
    }
    assert t[..len] == t;
  }

  lemma TextPrefix(s: string)
    ensures |Text(s)| <= |s| && Text(s) == s[..|Text(s)|]
  {
  }

  /** One character that is not a `%`. */
  lemma NextChar(fmt: string, args: seq<Arg>, nul: bool)
    requires At(fmt, 0) != '\0' && fmt[0] != '%' && Matches(fmt, args)
    ensures Matches(fmt[1..], args)
    ensures Render(fmt, args) == [fmt[0]] + Render(fmt[1..], args)
    ensures NulBehind(fmt, args, nul) == NulBehind(fmt[1..], args, false)
  {
  }

  /** One `%` and the specifier behind it. */
  lemma NextSpec(fmt: string, args: seq<Arg>, nul: bool)
    requires At(fmt, 0) == '%' && At(fmt, 1) != '\0' && Matches(fmt, args)
    ensures TakesArg(fmt[1]) ==>
              && args != [] && Suits(fmt[1], args[0]) && Matches(fmt[2..], args[1..])
              && Render(fmt, args) == Shown(fmt[1], args[0]) + Render(fmt[2..], args[1..])
              && NulBehind(fmt, args, nul) == NulBehind(fmt[2..], args[1..], NulAfter(fmt[1], args[0], nul))
    ensures !TakesArg(fmt[1]) ==>
              && Matches(fmt[2..], args) && Render(fmt, args) == Render(fmt[2..], args)
              && NulBehind(fmt, args, nul) == NulBehind(fmt[2..], args, nul)
  {
  }

  /** There is room for a NUL behind what has been printed so far. */
  lemma {:induction false} Room(fmt: string, args: seq<Arg>, nul: bool)
    requires Matches(fmt, args)
    ensures |Tail(nul)| <= |Render(fmt, args)| + |Tail(NulBehind(fmt, args, nul))|
    decreases |fmt|
  {
    if At(fmt, 0) == '%' && At(fmt, 1) != '\0' {
      NextSpec(fmt, args, nul);
      if TakesArg(fmt[1]) {
        Room(fmt[2..], args[1..], NulAfter(fmt[1], args[0], nul));
      } else {
        Room(fmt[2..], args, nul);
      }
    }
  }

  /** What one specifier does to the buffer, with the next argument if it takes one. */
  method PrintSpec(c: char, args: seq<Arg>, j: nat, buf: array<char>, p: nat,
                   ghost c0: string, ghost out: string, ghost nul: bool)
    returns (p': nat, j': nat)
    requires |out| == p && |c0| == buf.Length && |out + Tail(nul)| <= |c0| && buf[..] == Patched(c0, 0, out + Tail(nul))
    requires TakesArg(c) ==>
               && j < |args| && Suits(c, args[j])
               && p + |Shown(c, args[j])| + |Tail(NulAfter(c, args[j], nul))| <= buf.Length
    modifies buf
    ensures TakesArg(c) ==>
              && j' == j + 1 && p' == p + |Shown(c, args[j])|
              && |out + Shown(c, args[j]) + Tail(NulAfter(c, args[j], nul))| <= |c0|
              && buf[..] == Patched(c0, 0, out + Shown(c, args[j]) + Tail(NulAfter(c, args[j], nul)))
    ensures !TakesArg(c) ==> j' == j && p' == p && buf[..] == old(buf[..])
  {
    hide Patched, Printed, Text;
    p', j' := p, j;
    if c == 's' {
      p' := PutString(args[j].s, buf, p, c0, out, nul);
      j' := j + 1;
    } else if c == 'd' {
      p' := PutNumber(args[j].n, 10, buf, p, c0, out, nul);
      j' := j + 1;
    } else if c == 'c' {
      PutChar(buf, p, LowByte(args[j].n), c0, out, nul);
      p' := p + 1;
      j' := j + 1;
      assert out + [LowByte(args[j].n)] + Tail(false) == out + [LowByte(args[j].n)];
    } else if c == 'x' {
      p' := PutNumber(args[j].n, 16, buf, p, c0, out, nul);
      j' := j + 1;
    }
  }

  /** Rendering what is left, behind what has been printed, gives the whole. */
  ghost predicate Progress(fmt: string, args: seq<Arg>, rest: string, left: seq<Arg>, out: string, nul: bool)
  {
    && Matches(fmt, args) && Matches(rest, left)
    && out + Render(rest, left) == Render(fmt, args)
    && NulBehind(rest, left, nul) == NulBehind(fmt, args, false)
  }

  lemma ProgressRoom(fmt: string, args: seq<Arg>, rest: string, left: seq<Arg>, out: string, nul: bool)
    requires Progress(fmt, args, rest, left, out, nul)
    ensures |out| + |Tail(nul)| <= |Render(fmt, args)| + |Tail(NulBehind(fmt, args, false))|
    ensures |out + Tail(nul)| == |out| + |Tail(nul)|
  {
    Room(rest, left, nul);
  }

  lemma ProgressChar(fmt: string, args: seq<Arg>, rest: string, left: seq<Arg>, out: string, nul: bool)
    requires Progress(fmt, args, rest, left, out, nul) && At(rest, 0) != '\0' && rest[0] != '%'
    ensures Progress(fmt, args, rest[1..], left, out + [rest[0]], false)
  {
    NextChar(rest, left, nul);
    Associate(out, [rest[0]], Render(rest[1..], left));
  }

  lemma ProgressSpec(fmt: string, args: seq<Arg>, rest: string, left: seq<Arg>, out: string, nul: bool)
    requires Progress(fmt, args, rest, left, out, nul) && At(rest, 0) == '%' && At(rest, 1) != '\0'
    ensures TakesArg(rest[1]) ==>
              && left != [] && Suits(rest[1], left[0])
              && Progress(fmt, args, rest[2..], left[1..], out + Shown(rest[1], left[0]), NulAfter(rest[1], left[0], nul))
    ensures !TakesArg(rest[1]) ==> Progress(fmt, args, rest[2..], left, out, nul)
  {
    NextSpec(rest, left, nul);
    if TakesArg(rest[1]) {
      Associate(out, Shown(rest[1], left[0]), Render(rest[2..], left[1..]));
    }
  }

  lemma Start(fmt: string, args: seq<Arg>, c0: string)
    requires Matches(fmt, args)
    ensures Progress(fmt, args, fmt, args[0..], [], false)
    ensures Patched(c0, 0, [] + Tail(false)) == c0 && fmt == fmt[0..] && |[] + Tail(false)| == 0
  {
    assert args[0..] == args;
    assert [] + Render(fmt, args) == Render(fmt, args);
  }

  lemma GetChar(fmt: string, i: nat)
    requires At(fmt, i) != '\0'
    ensures i < |fmt| && fmt[i] == At(fmt, i)
  {
  }

  /** The rest of a format, with and without a `%` in front. */
  lemma Ahead(fmt: string, i: nat)
    requires i < |fmt|
    ensures At(fmt[i..], 0) == fmt[i] && fmt[i..][1..] == fmt[i + 1..]
    ensures fmt[i] == '%' ==> fmt[i..] == ['%'] + fmt[i + 1..]
    ensures var r := ['%'] + fmt[i..]; At(r, 0) == '%' && At(r, 1) == fmt[i] == r[1] && r[2..] == fmt[i + 1..]
  {
  }

  lemma ProgressEnd(fmt: string, args: seq<Arg>, rest: string, left: seq<Arg>, out: string, nul: bool)
    requires Progress(fmt, args, rest, left, out, nul)
    requires At(rest, 0) == '\0' || (rest[0] == '%' && At(rest, 1) == '\0')
    ensures out == Render(fmt, args) && nul == NulBehind(fmt, args, false)
  {
  }

  /**
   * Print `args` by `fmt`. Nothing is written behind the text, except the NUL that printing a number
   * leaves there.
   */
  method Vsprintf(buf: array<char>, fmt: string, args: seq<Arg>)
    requires Matches(fmt, args)
    requires |Render(fmt, args)| + |Tail(NulBehind(fmt, args, false))| <= buf.Length
    modifies buf
    ensures buf[..] == Patched(old(buf[..]), 0, Render(fmt, args) + Tail(NulBehind(fmt, args, false)))
  {
    hide Progress, Patched, Render, NulBehind, Matches, Shown, NulAfter, TakesArg, Suits;
    var reading := false;
    var p: nat, i: nat, j: nat := 0, 0, 0;
    ghost var c0, out, nul, rest := buf[..], "", false, fmt;
    Start(fmt, args, c0);
    while At(fmt, i) != '\0'
      invariant i <= |fmt| && rest == if reading then ['%'] + fmt[i..] else fmt[i..]
      invariant j <= |args| && p == |out| && |c0| == buf.Length
      invariant Progress(fmt, args, rest, args[j..], out, nul)
      invariant |out + Tail(nul)| <= |c0| && buf[..] == Patched(c0, 0, out + Tail(nul))
      decreases |fmt| - i
    {
      GetChar(fmt, i);
      Ahead(fmt, i);
      var ch := fmt[i];
      i := i + 1;
      if reading {
        ProgressSpec(fmt, args, rest, args[j..], out, nul);
        ghost var out', nul', left' := out, nul, args[j..];
        if TakesArg(ch) {
          out', nul', left' := out + Shown(ch, args[j]), NulAfter(ch, args[j], nul), args[j..][1..];
        }
        ProgressRoom(fmt, args, rest[2..], left', out', nul');
        p, j := PrintSpec(ch, args, j, buf, p, c0, out, nul);
        out, nul, rest := out', nul', rest[2..];
        reading := false;
      } else if ch == '%' {
        reading := true;
      } else {
        ProgressChar(fmt, args, rest, args[j..], out, nul);
        ProgressRoom(fmt, args, rest[1..], args[j..], out + [ch], false);
        PutChar(buf, p, ch, c0, out, nul);
        p := p + 1;
        out, nul, rest := out + [ch], false, rest[1..];
        assert out + Tail(nul) == out;
      }
    }
    ProgressEnd(fmt, args, rest, args[j..], out, nul);
  }

  // ----- on a zeroed buffer

  /** On a zeroed buffer the NUL does not show: the text is followed by zeros. */
  lemma ZeroedBuffer(n: nat, text: string, nul: bool)
    requires |text| + |Tail(nul)| <= n
    ensures Patched(seq(n, _ => '\0'), 0, text + Tail(nul)) == text + seq(n - |text|, _ => '\0')
  {
  }

  const LOG_BUFFER := 128

  /**
   * A line of the log, as sent to the serial port: the text up to its first NUL and a line end. The
   * code has no check that the text fits the buffer; its callers must see to that.
   */
  method LogLine(fmt: string, args: seq<Arg>) returns (sent: string)
    requires Matches(fmt, args) && |Render(fmt, args)| < 128
    ensures sent == Text(Render(fmt, args)) + "\r\n"
  {
    var buf := new char[LOG_BUFFER];
    Memset(buf, '\0', LOG_BUFFER);
    ghost var text, nul := Render(fmt, args), NulBehind(fmt, args, false);
    assert buf[..] == seq(LOG_BUFFER, _ => '\0');
    ZeroedBuffer(LOG_BUFFER, text, nul);
    hide Patched;
    Vsprintf(buf, fmt, args);
    assert buf[..] == text + seq(LOG_BUFFER - |text|, _ => '\0');
    var p := 0;
    sent := "";
    while buf[p] != '\0'
      invariant p <= |text| && sent == text[..p] && '\0' !in text[..p]
      decreases |text| - p
    {
      assert buf[..][p] != '\0';
      assert text[..p + 1] == text[..p] + [text[p]];
      sent := sent + [buf[p]];
      p := p + 1;
    }
    assert buf[..][p] == '\0';
    TextStops(text, p);
    sent := sent + "\r\n";
  }

  // ----- formats in sequence

  /** `a` has no NUL and does not end between a `%` and its specifier. */
  predicate Closed(a: string)
    decreases |a|
  {
    a == [] ||
    (a[0] != '\0' && if a[0] != '%' then Closed(a[1..]) else |a| >= 2 && a[1] != '\0' && Closed(a[2..]))
  }

  /** The number of arguments that `a` takes. */
  function Taken(a: string): nat
    requires Closed(a)
    decreases |a|
  {
    if a == [] then 0
    else if a[0] != '%' then Taken(a[1..])
    else (if TakesArg(a[1]) then 1 else 0) + Taken(a[2..])
  }

  /** Formats in sequence print their texts in sequence, each from the arguments the earlier ones left. */
  lemma {:induction false} RenderConcat(a: string, b: string, args: seq<Arg>)
    requires Closed(a)
    ensures Matches(a + b, args) <==> Matches(a, args) && Taken(a) <= |args| && Matches(b, args[Taken(a)..])
    ensures Matches(a + b, args) ==> Render(a + b, args) == Render(a, args) + Render(b, args[Taken(a)..])
    decreases |a|
  {
    if a == [] {
      assert a + b == b && args[0..] == args;
    } else if a[0] != '%' {
      assert (a + b)[1..] == a[1..] + b;
      RenderConcat(a[1..], b, args);
      if Matches(a + b, args) {
        Associate([a[0]], Render(a[1..], args), Render(b, args[Taken(a)..]));
      }
    } else if !TakesArg(a[1]) {
      assert (a + b)[2..] == a[2..] + b;
      RenderConcat(a[2..], b, args);
    } else if args != [] {
      assert (a + b)[2..] == a[2..] + b;
      RenderConcat(a[2..], b, args[1..]);
      assert Taken(a) <= |args| ==> args[1..][Taken(a[2..])..] == args[Taken(a)..];
      if Matches(a + b, args) {
        Associate(Shown(a[1], args[0]), Render(a[2..], args[1..]), Render(b, args[Taken(a)..]));
      }
    }
  }

  /** A specifier that is not known, anywhere in a format, prints nothing and takes no argument. */
  lemma UnknownSpecifier(a: string, c: char, b: string, args: seq<Arg>)
    requires Closed(a) && c !in "sdcx" && c != '\0'
    ensures Matches(a + (['%', c] + b), args) <==> Matches(a + b, args)
    ensures Matches(a + b, args) ==> Render(a + (['%', c] + b), args) == Render(a + b, args)
  {
    RenderConcat(a, ['%', c] + b, args);
    RenderConcat(a, b, args);
    assert (['%', c] + b)[2..] == b;
  }

  /** What the specifier `c` behind `a` prints. */
  function SpecText(a: string, c: char, args: seq<Arg>): (t: string)
    requires Closed(a) && Matches(a + ['%', c], args)
    ensures Matches(a, args) && Render(a + ['%', c], args) == Render(a, args) + t
  {
    RenderConcat(a, ['%', c], args);
    Render(['%', c], args[Taken(a)..])
  }

  /** A specifier that takes an argument prints its text for it. */
  lemma SpecShows(a: string, c: char, args: seq<Arg>)
    requires Closed(a) && Matches(a + ['%', c], args) && Taken(a) < |args| && TakesArg(c)
    ensures SpecText(a, c, args) == Shown(c, args[Taken(a)]) && Suits(c, args[Taken(a)])
  {
    RenderConcat(a, ['%', c], args);
    NextSpec(['%', c], args[Taken(a)..], false);
    assert ['%', c][2..] == [];
    assert Shown(c, args[Taken(a)]) + [] == Shown(c, args[Taken(a)]);
  }

  /** A number printed behind any text reads back: by `%d` in base 10, by `%x` its magnitude in base 16. */
  lemma NumberReadsBack(a: string, n: int, args: seq<Arg>)
    requires Closed(a) && Taken(a) < |args| && args[Taken(a)] == Int(n)
    ensures Matches(a + "%d", args) ==> Parse(SpecText(a, 'd', args), 10) == n
    ensures Matches(a + "%x", args) ==> Parse(SpecText(a, 'x', args), 16) == if n >= 0 then n else -n
  {
    assert "%d" == ['%', 'd'] && "%x" == ['%', 'x'];
    if Matches(a + "%d", args) {
      SpecShows(a, 'd', args);
    }
    if Matches(a + "%x", args) {
      SpecShows(a, 'x', args);
    }
    PrintedReadsBack(n, 10);
    PrintedReadsBack(n, 16);
    hide Printed, Parse, Render, SpecText;
  }

  /** `%c` prints one character, the low byte of its argument, NUL included. */
  lemma CharIsLowByte(a: string, n: int, args: seq<Arg>)
    requires Closed(a) && Matches(a + "%c", args) && Taken(a) < |args| && args[Taken(a)] == Int(n)
    ensures |SpecText(a, 'c', args)| == 1 && SpecText(a, 'c', args)[0] as int == n % 256
  {
    assert "%c" == ['%', 'c'];
    SpecShows(a, 'c', args);
  }

  /** `%s` prints the characters of its argument before the first NUL, in order, and nothing for a null pointer. */
  lemma StringIsPrinted(a: string, s: Option<string>, args: seq<Arg>)
    requires Closed(a) && Matches(a + "%s", args) && Taken(a) < |args| && args[Taken(a)] == Str(s)
    ensures var t := SpecText(a, 's', args);
            if s == None then t == []
            else t <= s.value && '\0' !in t && (|t| < |s.value| ==> s.value[|t|] == '\0')
  {
    assert "%s" == ['%', 's'];
    SpecShows(a, 's', args);
    if s.Some? {
      TextBefore(s.value);
    }
  }

  /** The text of a C string ends at its first NUL. */
  lemma {:induction false} TextBefore(s: string)
    ensures var t := Text(s); t <= s && '\0' !in t && (|t| < |s| ==> s[|t|] == '\0')
  {
    if s != [] && s[0] != '\0' {
      TextBefore(s[1..]);
    }
  }
}
