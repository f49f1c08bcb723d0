/** memmove and the tokenizer of the C library (libc/string.c). */
module CString {
  import opened KernelBase

  // ---------------------------------------------------------------- maximal runs

  /** The first position of s from p on whose element is not in d, or with inside false is in d. */
  function Skip<T(==)>(s: seq<T>, d: seq<T>, p: nat, inside: bool): (n: nat)
    requires p <= |s|
    ensures p <= n <= |s|
    ensures forall i :: p <= i < n ==> (s[i] in d) == inside
    ensures n < |s| ==> (s[n] in d) != inside
    decreases |s| - p
  {
    if p == |s| || (s[p] in d) != inside then p else Skip(s, d, p + 1, inside)
  }

  /** The tokens of s from position p on: skip delimiters, take what is not a delimiter, go on. */
  function TokensFrom<T(==)>(s: seq<T>, d: seq<T>, p: nat): seq<seq<T>>
    requires p <= |s|
    decreases |s| - p
  {
    var a := Skip(s, d, p, true);
    if a == |s| then []
    else
      var b := Skip(s, d, a, false);
      [s[a..b]] + TokensFrom(s, d, b)
  }

  function Tokens<T(==)>(s: seq<T>, d: seq<T>): seq<seq<T>> {
    TokensFrom(s, d, 0)
  }

  /** [a, b) is a maximal run of elements of s that are no delimiters. */
  predicate IsRun<T(==)>(s: seq<T>, d: seq<T>, a: nat, b: nat) {
    && a < b <= |s|
    && (forall i :: a <= i < b ==> s[i] !in d)
    && (a == 0 || s[a - 1] in d) && (b == |s| || s[b] in d)
  }

  /** The runs r are maximal runs of s from position p on, in order, and t is what they cover. */
  predicate InOrder<T(==)>(s: seq<T>, d: seq<T>, p: nat, r: seq<(nat, nat)>, t: seq<seq<T>>) {
    && |t| == |r|
    && (forall k :: 0 <= k < |r| ==> p <= r[k].0 && IsRun(s, d, r[k].0, r[k].1) && t[k] == s[r[k].0..r[k].1])
    && (forall j, k :: 0 <= j < k < |r| ==> r[j].1 < r[k].0)
  }

  /** No maximal run of s from position p on is missing from r. */
  ghost predicate Complete<T>(s: seq<T>, d: seq<T>, p: nat, r: seq<(nat, nat)>) {
    forall a: nat, b: nat :: p <= a && IsRun(s, d, a, b) ==> (a, b) in r
  }

  /** The tokens of a string are exactly its maximal runs of characters that are no delimiters, in order. */
  lemma TokensAreRuns<T>(s: seq<T>, d: seq<T>) returns (r: seq<(nat, nat)>)
    ensures InOrder(s, d, 0, r, Tokens(s, d)) && Complete(s, d, 0, r)
  {
    r := RunsFrom(s, d, 0);
  }

  lemma {:induction false} RunsFrom<T>(s: seq<T>, d: seq<T>, p: nat) returns (r: seq<(nat, nat)>)
    requires p <= |s| && (p == 0 || p == |s| || s[p] in d)
    ensures InOrder(s, d, p, r, TokensFrom(s, d, p)) && Complete(s, d, p, r)
    decreases |s| - p
  {
    var a := Skip(s, d, p, true);
    if a == |s| {
      r := [];
      NoRuns(s, d, p);
    } else {
      var b := Skip(s, d, a, false);
      var r0 := RunsFrom(s, d, b);
      r := [(a, b)] + r0;
      FirstInOrder(s, d, p, a, b, r0, TokensFrom(s, d, b));
      StillComplete(s, d, p, a, b, r0);
    }
  }

  lemma NoRuns<T>(s: seq<T>, d: seq<T>, p: nat)
    requires forall i :: p <= i < |s| ==> s[i] in d
    ensures Complete(s, d, p, [])
  {
    forall x: nat, y: nat | IsRun(s, d, x, y) ensures x < p { assert s[x] !in d; }
  }

  lemma FirstInOrder<T>(s: seq<T>, d: seq<T>, p: nat, a: nat, b: nat, r: seq<(nat, nat)>, t: seq<seq<T>>)
    requires p <= a && IsRun(s, d, a, b) && InOrder(s, d, b, r, t)
    ensures InOrder(s, d, p, [(a, b)] + r, [s[a..b]] + t)
  {
    forall k | 0 <= k < |r| ensures b < r[k].0 {
      RunsApart(s, d, a, b, r[k].0, r[k].1);
    }
  }

  lemma StillComplete<T>(s: seq<T>, d: seq<T>, p: nat, a: nat, b: nat, r: seq<(nat, nat)>)
    requires p <= a && IsRun(s, d, a, b) && Complete(s, d, b, r)
    requires forall i :: p <= i < a ==> s[i] in d
    ensures Complete(s, d, p, [(a, b)] + r)
  {
    var r' := [(a, b)] + r;
    assert r'[0] == (a, b);
    forall x: nat, y: nat | p <= x && IsRun(s, d, x, y) ensures (x, y) in r' {
      assert s[x] !in d;
      RunsApart(s, d, a, b, x, y);
      if x >= b { assert (x, y) in r; }
    }
  }

  /** Two maximal runs are the same or one ends before the other starts. */
  lemma RunsApart<T>(s: seq<T>, d: seq<T>, a: nat, b: nat, x: nat, y: nat)
    requires IsRun(s, d, a, b) && IsRun(s, d, x, y)
    ensures (a, b) == (x, y) || b < x || y < a
  {
    assert s[a] !in d && s[x] !in d;
  }

  // ---------------------------------------------------------------- strings in memory

  /** From position p on, the string s lies in memory at address base and is terminated. */
  predicate Text(mem: seq<int>, base: int, s: seq<int>, p: nat) {
    && 0 <= base && base + |s| < |mem| && p <= |s| && 0 !in s
    && mem[base + |s|] == 0
    && forall i :: p <= i < |s| ==> mem[base + i] == s[i]
  }

  /** What is still to be returned when the cursor is in s, which lies at base, or null. */
  function Pending(base: int, s: seq<int>, d: seq<int>, cursor: int): seq<seq<int>> {
    if cursor != NULL && base <= cursor <= base + |s| then TokensFrom(s, d, cursor - base) else []
  }

  /** The cursor is null or inside s, and the memory still holds the rest of s from there on. */
  predicate Inside(mem: seq<int>, base: int, s: seq<int>, cursor: int) {
    cursor != NULL ==> base <= cursor <= base + |s| && Text(mem, base, s, cursor - base)
  }

  /**
   * A call that starts at q takes memory m to n, returns token and leaves the cursor: past the
   * delimiters, the next one ends the token.
   */
  predicate Takes(m: seq<int>, base: int, s: seq<int>, d: seq<int>, q: int, n: seq<int>, token: int, cursor: int)
    requires Inside(m, base, s, q)
  {
    var a := if q == NULL then |s| else Skip(s, d, q - base, true);
    if a == |s| then token == cursor == NULL && n == m
    else
      var b := Skip(s, d, a, false);
      && token == base + a && n == m[base + b := 0]
      && cursor == if b < |s| then base + b + 1 else NULL
  }

  /**
   * While tokens are pending, a call returns the first as a string of its own and leaves the others
   * pending; it writes nothing but the terminator of that token.
   */
  lemma TakesFirst(m: seq<int>, base: int, s: seq<int>, d: seq<int>, q: int, n: seq<int>, token: int, cursor: int)
    requires Inside(m, base, s, q) && Takes(m, base, s, d, q, n, token, cursor)
    ensures Inside(n, base, s, cursor)
    ensures token == NULL <==> Pending(base, s, d, q) == []
    ensures token == NULL ==> cursor == NULL && n == m
    ensures token != NULL ==>
              var pending := Pending(base, s, d, q);
              var end := token + |pending[0]|;
              && q <= token && Text(n, token, pending[0], 0) && Pending(base, s, d, cursor) == pending[1..]
              && end <= base + |s| && n == m[end := 0] && (cursor == NULL || cursor == end + 1)
  {
    if token != NULL {
      var a := Skip(s, d, q - base, true);
      var b := Skip(s, d, a, false);
      FirstToken(base, s, d, q, a, b, cursor);
      CutOff(m, base, s, q - base, a, b, n, token, Pending(base, s, d, q)[0]);
    }
  }

  lemma FirstToken(base: nat, s: seq<int>, d: seq<int>, q: int, a: nat, b: nat, cursor: int)
    requires base <= q <= base + |s| && a == Skip(s, d, q - base, true) < |s| && b == Skip(s, d, a, false)
    requires cursor == if b < |s| then base + b + 1 else NULL
    ensures var t := Pending(base, s, d, q);
            t != [] && t[0] == s[a..b] && Pending(base, s, d, cursor) == t[1..]
  {
    assert TokensFrom(s, d, q - base) == [s[a..b]] + TokensFrom(s, d, b);
    if b < |s| {
      assert Skip(s, d, b, true) == Skip(s, d, b + 1, true);
    }
  }

  lemma OnlyEndIsZero(m: seq<int>, base: int, s: seq<int>, p: nat, b: nat)
    requires Text(m, base, s, p) && p <= b <= |s|
    ensures m[base + b] == 0 <==> b == |s|
  {
    if b < |s| { assert m[base + b] == s[b]; }
  }

  /** A terminator written at the end of a piece makes the piece a string of its own. */
  lemma CutOff(m: seq<int>, base: int, s: seq<int>, p: nat, a: nat, b: nat, n: seq<int>, address: int, t: seq<int>)
    requires Text(m, base, s, p) && p <= a <= b <= |s|
    requires n == m[base + b := 0] && address == base + a && t == s[a..b]
    ensures Text(n, address, t, 0)
    ensures b < |s| ==> Text(n, base, s, b + 1)
  {
    forall i | 0 <= i < |t| ensures n[address + i] == t[i] {
      assert m[base + (a + i)] == s[a + i];
    }
  }

  /** The addresses taken so far hold the first of all tokens, and these end before the limit. */
  predicate Taken(mem: seq<int>, taken: seq<int>, all: seq<seq<int>>, limit: int) {
    |taken| <= |all| && forall k :: 0 <= k < |taken| ==> Text(mem, taken[k], all[k], 0) && taken[k] + |all[k]| < limit
  }

  /** A later call leaves the earlier tokens alone. */
  lemma TakenKept(m: seq<int>, n: seq<int>, taken: seq<int>, all: seq<seq<int>>, q: int, token: int)
    requires Taken(m, taken, all, q) && |taken| < |all| && q <= token && Text(n, token, all[|taken|], 0)
    requires var end := token + |all[|taken|]|; end < |m| && n == m[end := 0]
    ensures Taken(n, taken + [token], all, token + |all[|taken|]| + 1)
  {
    forall k | 0 <= k < |taken| ensures Text(n, taken[k], all[k], 0) {
      assert taken[k] + |all[k]| < q;
    }
  }

  /** Between two calls: what was taken and what is pending make up the tokens of s. */
  predicate Midway(m0: seq<int>, m: seq<int>, base: int, s: seq<int>, d: seq<int>, taken: seq<int>, q: int) {
    && 0 <= base && base + |s| < |m| == |m0|
    && Inside(m, base, s, q) && Taken(m, taken, Tokens(s, d), if q == NULL then |m| else q)
    && Pending(base, s, d, q) == Tokens(s, d)[|taken|..]
    && m[..base] == m0[..base] && m[base + |s|..] == m0[base + |s|..]
  }

  lemma MidwayStep(m0: seq<int>, m: seq<int>, n: seq<int>, base: int, s: seq<int>, d: seq<int>,
                   taken: seq<int>, q: int, token: int, cursor: int)
    requires Midway(m0, m, base, s, d, taken, q)
    requires Takes(m, base, s, d, q, n, token, cursor) && token != NULL
    ensures Midway(m0, n, base, s, d, taken + [token], cursor)
  {
    var all := Tokens(s, d);
    TakesFirst(m, base, s, d, q, n, token, cursor);
    TakenKept(m, n, taken, all, q, token);
    assert all[|taken|..][1..] == all[|taken| + 1..];
    assert n[base + |s|] == m[base + |s|];
  }

  /** Where the byte at j comes from when [lo, hi) has been moved from src to dest. */
  function Source(j: int, dest: int, src: int, lo: int, hi: int): int {
    if lo <= j < hi then src + (j - dest) else j
  }

  /** The string functions over one memory; cursor is strtok's static pointer. */
  class CLibrary {
    const mem: array<int>
    var cursor: int

    constructor (size: nat)
      ensures mem.Length == size && cursor == NULL && fresh(mem)
    {
      mem := new int[size];
      cursor := NULL;
    }

    /** Whatever the overlap, dest holds what src held and nothing else changes. */
    method Memmove(dest: nat, src: nat, n: nat)
      requires dest + n <= mem.Length && src + n <= mem.Length
      modifies mem
      ensures mem[dest..dest + n] == old(mem[src..src + n])
      ensures mem[..dest] == old(mem[..dest]) && mem[dest + n..] == old(mem[dest + n..])
    {
      if dest < src {
        CopyForward(dest, src, n);
      } else {
        CopyBackward(dest, src, n);
      }
    }

    method CopyForward(dest: nat, src: nat, n: nat)
      requires dest + n <= mem.Length && src + n <= mem.Length && dest < src
      modifies mem
      ensures forall j :: 0 <= j < mem.Length ==> mem[j] == old(mem[Source(j, dest, src, dest, dest + n)])
    {
      for k := 0 to n
        invariant forall j :: 0 <= j < mem.Length ==> mem[j] == old(mem[Source(j, dest, src, dest, dest + k)])
      {
        mem[dest + k] := mem[src + k];
      }
    }

    method CopyBackward(dest: nat, src: nat, n: nat)
      requires dest + n <= mem.Length && src + n <= mem.Length && src <= dest
      modifies mem
      ensures forall j :: 0 <= j < mem.Length ==> mem[j] == old(mem[Source(j, dest, src, dest, dest + n)])
    {
      for k := n downto 0
        invariant forall j :: 0 <= j < mem.Length ==> mem[j] == old(mem[Source(j, dest, src, dest + k, dest + n)])
      {
        mem[dest + k] := mem[src + k];
      }
    }

    /** The first occurrence of c in the string s; the terminator counts as one. */
    static method Strchr(s: seq<int>, c: int) returns (k: int)
      requires 0 !in s
      ensures k == NULL <==> c !in s && c != 0
      ensures k != NULL ==> 0 <= k <= |s| && c !in s[..k] && (if k < |s| then s[k] == c else c == 0)
    {
      k := 0;
      while k < |s|
        invariant 0 <= k <= |s| && c !in s[..k]
      {
        if s[k] == c { return; }
        k := k + 1;
      }
      if c != 0 { k := NULL; }
    }

    method Strspn(address: int, accept: seq<int>, ghost base: int, ghost s: seq<int>) returns (n: nat)
      requires 0 !in accept && base <= address <= base + |s| && Text(mem[..], base, s, address - base)
      ensures base + Skip(s, accept, address - base, true) == address + n
    {
      var p := address;
      while mem[p] != 0
        invariant address <= p <= base + |s|
        invariant Skip(s, accept, address - base, true) == Skip(s, accept, p - base, true)
        decreases base + |s| - p
      {
        assert mem[p] == s[p - base];
        var k := Strchr(accept, mem[p]);
        if k == NULL { break; }
        p := p + 1;
      }
      n := p - address;
    }

    method Strcspn(address: int, reject: seq<int>, ghost base: int, ghost s: seq<int>) returns (n: nat)
      requires 0 !in reject && base <= address <= base + |s| && Text(mem[..], base, s, address - base)
      ensures base + Skip(s, reject, address - base, false) == address + n
    {
      var p := address;
      while mem[p] != 0
        invariant address <= p <= base + |s|
        invariant Skip(s, reject, address - base, false) == Skip(s, reject, p - base, false)
        decreases base + |s| - p
      {
        assert mem[p] == s[p - base];
        var k := Strchr(reject, mem[p]);
        if k != NULL { break; }
        p := p + 1;
      }
      n := p - address;
    }

    method Strtok(str: int, delim: seq<int>, ghost base: int, ghost s: seq<int>) returns (token: int)
      requires 0 !in delim && Inside(mem[..], base, s, if str != NULL then str else cursor)
      modifies this`cursor, mem
      ensures Takes(old(mem[..]), base, s, delim, old(if str != NULL then str else cursor), mem[..], token, cursor)
    {
      if str != NULL { cursor := str; }
      if cursor == NULL { return NULL; }
      token := TakeNext(delim, base, s);
    }

    method TakeNext(delim: seq<int>, ghost base: int, ghost s: seq<int>) returns (token: int)
      requires 0 !in delim && cursor != NULL && Inside(mem[..], base, s, cursor)
      modifies this`cursor, mem
      ensures Takes(old(mem[..]), base, s, delim, old(cursor), mem[..], token, cursor)
    {
      ghost var p := cursor - base;
      var n := Strspn(cursor, delim, base, s);
      cursor := cursor + n;
      if mem[cursor] == 0 {
        cursor := NULL;
        return NULL;
      }
      token := cursor;
      n := Strcspn(cursor, delim, base, s);
      cursor := cursor + n;
      OnlyEndIsZero(mem[..], base, s, p, cursor - base);
      Terminate();
    }

    /** The delimiter after a token becomes its terminator, unless the string ends there. */
    method Terminate()
      requires 0 <= cursor < mem.Length
      modifies this`cursor, mem
      ensures mem[..] == old(mem[..])[old(cursor) := 0]
      ensures cursor == old(if mem[cursor] != 0 then cursor + 1 else NULL)
    {
      if mem[cursor] != 0 {
        mem[cursor] := 0;
        cursor := cursor + 1;
      } else {
        cursor := NULL;
      }
    }

    /** The first call is given the string and the later ones null: the tokens come in order, then null. */
    method Tokenize(str: int, delim: seq<int>, ghost s: seq<int>) returns (tokens: seq<int>)
      requires 0 !in delim && Text(mem[..], str, s, 0)
      modifies this`cursor, mem
      ensures cursor == NULL && |tokens| == |Tokens(s, delim)|
      ensures forall k :: 0 <= k < |tokens| ==> Text(mem[..], tokens[k], Tokens(s, delim)[k], 0)
      ensures mem[..str] == old(mem[..str]) && mem[str + |s|..] == old(mem[str + |s|..])
    {
      tokens := [];
      var arg := str;
      while true
        invariant Midway(old(mem[..]), mem[..], str, s, delim, tokens, if arg != NULL then arg else cursor)
        decreases |Tokens(s, delim)| - |tokens|
      {
        ghost var m, q := mem[..], if arg != NULL then arg else cursor;
        var token := Strtok(arg, delim, str, s);
        if token == NULL {
          TakesFirst(m, str, s, delim, q, mem[..], token, cursor);
          break;
        }
        MidwayStep(old(mem[..]), m, mem[..], str, s, delim, tokens, q, token, cursor);
        tokens, arg := tokens + [token], NULL;
      }
    }
  }
}
