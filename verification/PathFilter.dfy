/**
 The socket-path filter of the dump tool: a pattern is compiled to 64-bit word comparisons, which
 the probe runs over a zero-initialised buffer that it fills from the socket's own address and then,
 if that did not match, from the peer's.
 */
module PathFilter {
  import opened Bytes

  const UNIX_PATH_MAX: nat := 108
  const STAR: Byte := 0x2A
  const AT: Byte := 0x40

  /** The comparisons `path[i] == words[i]`, and how many bytes of the path to read first. */
  datatype Filter = MatchAll | Compare(words: seq<Long>, len: nat)

  datatype Built = Ok(filter: Filter) | EmptyPattern | InvalidPath

  /** The name a pattern without a star stands for. */
  function ExactName(pattern: seq<Byte>): seq<Byte>
    requires pattern != []
  {
    if pattern[0] == AT then pattern[1..] else pattern
  }

  /** The bytes a path must start with: a prefix, or a whole name with its terminator. */
  function Target(pattern: seq<Byte>): seq<Byte>
    requires pattern != []
  {
    if pattern[|pattern| - 1] == STAR then pattern[..|pattern| - 1] else ExactName(pattern) + [0]
  }

  function ZeroBytes(k: nat): (s: seq<Byte>)
    ensures |s| == k && forall i :: 0 <= i < k ==> s[i] == 0
  {
    seq(k, _ => 0)
  }

  function WordCount(len: nat): nat { (len + 7) / 8 }

  function Padded(s: seq<Byte>): (r: seq<Byte>)
    ensures |r| == 8 * WordCount(|s|)
  {
    s + ZeroBytes(8 * WordCount(|s|) - |s|)
  }

  /** A byte string as native 64-bit words. */
  function Words64(s: seq<Byte>): (ws: seq<Long>)
    ensures |ws| == |s| / 8
  {
    seq(|s| / 8, i requires 0 <= i < |s| / 8 => LongOf(s[8 * i..8 * i + 8]))
  }

  function BuildFilter(pattern: seq<Byte>): Built
  {
    if pattern == [] then EmptyPattern
    else
      var t := Target(pattern);
      if |t| > UNIX_PATH_MAX then InvalidPath
      else if t == [] then Ok(MatchAll)
      else Ok(Compare(Words64(Padded(t)), |t|))
  }

  // ---------------------------------------------------------------- words and bytes

  lemma LongInjective(x: seq<Byte>, y: seq<Byte>)
    requires |x| == 8 && |y| == 8 && LongOf(x) == LongOf(y)
    ensures x == y
  {
    ToFromLE(x);
    ToFromLE(y);
  }

  /** Equal words mean equal bytes. */
  lemma WordsDecideBytes(x: seq<Byte>, y: seq<Byte>)
    requires |x| == |y| && |x| % 8 == 0
    ensures Words64(x) == Words64(y) <==> x == y
  {
    if Words64(x) == Words64(y) {
      forall k | 0 <= k < |x| ensures x[k] == y[k] {
        var i := k / 8;
        assert Words64(x)[i] == Words64(y)[i];
        LongInjective(x[8 * i..8 * i + 8], y[8 * i..8 * i + 8]);
        assert x[8 * i..8 * i + 8][k % 8] == y[8 * i..8 * i + 8][k % 8];
      }
    }
  }

  // ---------------------------------------------------------------- addresses

  /**
   The address of a socket: none, a file path, or an abstract name. `raw` is memory from the start
   of sun_path on; what follows a path's terminator is arbitrary.
   */
  datatype Address = Unnamed | Path(raw: seq<Byte>) | Abstract(raw: seq<Byte>) {
    predicate WellFormed()
    {
      !Unnamed? ==> |raw| > UNIX_PATH_MAX && (Path? <==> raw[0] != 0)
    }
  }

  /** The bytes before the first NUL. */
  function CString(raw: seq<Byte>): seq<Byte>
  {
    if raw == [] || raw[0] == 0 then [] else [raw[0]] + CString(raw[1..])
  }

  lemma {:induction false} CStringMeaning(raw: seq<Byte>)
    ensures var s := CString(raw);
            |s| <= |raw| && s == raw[..|s|] && 0 !in s && (|s| < |raw| ==> raw[|s|] == 0)
  {
    if raw != [] && raw[0] != 0 {
      CStringMeaning(raw[1..]);
    }
  }

  /** The simple byte test the filter stands for; an exact pattern that begins with `@` stands for the rest of it. */
  predicate Wanted(pattern: seq<Byte>, name: seq<Byte>)
    requires pattern != []
  {
    if pattern[|pattern| - 1] == 0x2A then pattern[..|pattern| - 1] <= name
    else if pattern[0] == 0x40 then name == pattern[1..]
    else name == pattern
  }

  lemma CompareCons(x: Byte, xs: seq<Byte>, y: Byte, ys: seq<Byte>)
    ensures [x] + xs == [y] + ys <==> x == y && xs == ys
    ensures [x] + xs <= [y] + ys <==> x == y && xs <= ys
  {
    assert ([x] + xs)[0] == x && ([y] + ys)[0] == y;
    assert ([x] + xs)[1..] == xs && ([y] + ys)[1..] == ys;
    if [x] + xs <= [y] + ys {
      assert ([y] + ys)[..1 + |xs|] == [y] + ys[..|xs|];
      assert ([y] + ys)[..1 + |xs|][1..] == ys[..|xs|];
    }
  }

  lemma TakeCons(raw: seq<Byte>, k: nat)
    requires 1 <= k <= |raw|
    ensures raw[..k] == [raw[0]] + raw[1..][..k - 1]
  {
  }

  /** A NUL-free string is found at the start of memory exactly when it is a prefix of the string there. */
  lemma {:induction false} PrefixDecides(p: seq<Byte>, raw: seq<Byte>)
    requires 0 !in p && |p| <= |raw|
    ensures raw[..|p|] == p <==> p <= CString(raw)
    decreases |p|
  {
    if p != [] {
      var x, xs, y, ys := p[0], p[1..], raw[0], raw[1..];
      assert p == [x] + xs && x in p;
      PrefixDecides(xs, ys);
      TakeCons(raw, |p|);
      CompareCons(x, xs, y, ys[..|xs|]);
      CompareCons(x, xs, y, CString(ys));
    }
  }

  /** With its terminator it is found there exactly when it is the whole string. */
  lemma {:induction false} ExactDecides(p: seq<Byte>, raw: seq<Byte>)
    requires 0 !in p && |p| < |raw|
    ensures raw[..|p| + 1] == p + [0] <==> CString(raw) == p
    decreases |p|
  {
    TakeCons(raw, |p| + 1);
    if p == [] {
      assert raw[..1] == [raw[0]];
    } else {
      var x, xs, y, ys := p[0], p[1..], raw[0], raw[1..];
      assert p == [x] + xs && x in p;
      ExactDecides(xs, ys);
      assert p + [0] == [x] + (xs + [0]);
      CompareCons(x, xs + [0], y, ys[..|p|]);
      CompareCons(x, xs, y, CString(ys));
    }
  }

  lemma SliceKeepsOut(s: seq<Byte>, i: nat, j: nat)
    requires 0 !in s && i <= j <= |s|
    ensures 0 !in s[i..j]
  {
    forall x | x in s[i..j] ensures x != 0 {
      assert x in s;
    }
  }

  lemma ExactNameHasNoNul(pattern: seq<Byte>)
    requires pattern != [] && 0 !in pattern
    ensures 0 !in ExactName(pattern)
  {
    SliceKeepsOut(pattern, 1, |pattern|);
    assert pattern[1..] == pattern[1..|pattern|];
  }

  lemma PrefixTarget(pattern: seq<Byte>, raw: seq<Byte>)
    requires pattern != [] && 0 !in pattern && |Target(pattern)| <= |raw| && pattern[|pattern| - 1] == STAR
    ensures raw[..|Target(pattern)|] == Target(pattern) <==> Wanted(pattern, CString(raw))
  {
    SliceKeepsOut(pattern, 0, |pattern| - 1);
    assert Target(pattern) == pattern[0..|pattern| - 1];
    PrefixDecides(Target(pattern), raw);
  }

  lemma ExactTarget(pattern: seq<Byte>, raw: seq<Byte>)
    requires pattern != [] && 0 !in pattern && |Target(pattern)| <= |raw| && pattern[|pattern| - 1] != STAR
    ensures raw[..|Target(pattern)|] == Target(pattern) <==> Wanted(pattern, CString(raw))
  {
    ExactNameHasNoNul(pattern);
    ExactDecides(ExactName(pattern), raw);
  }

  /** Reading |Target| bytes of a path and comparing them is the byte test on the whole path. */
  lemma TargetDecides(pattern: seq<Byte>, raw: seq<Byte>)
    requires pattern != [] && 0 !in pattern && |Target(pattern)| <= |raw|
    ensures raw[..|Target(pattern)|] == Target(pattern) <==> Wanted(pattern, CString(raw))
  {
    if pattern[|pattern| - 1] == STAR {
      PrefixTarget(pattern, raw);
    } else {
      ExactTarget(pattern, raw);
    }
  }

  // ---------------------------------------------------------------- the probe

  /** The buffer after reading an address into it; an abstract name is read one byte shorter, from its second byte. */
  function Loaded(buffer: seq<Byte>, len: nat, addr: Address): (r: seq<Byte>)
    requires addr.WellFormed() && 1 <= len <= |buffer| && len <= UNIX_PATH_MAX
    ensures |r| == |buffer|
  {
    match addr
    case Unnamed => buffer
    case Path(raw) => raw[..len] + buffer[len..]
    case Abstract(raw) => raw[1..len] + buffer[len - 1..]
  }

  /** What the probe decides. The buffer is not cleared between the two reads. */
  function Verdict(filter: Filter, own: Address, peer: Address): bool
    requires own.WellFormed() && peer.WellFormed()
    requires filter.Compare? ==> 1 <= filter.len <= UNIX_PATH_MAX
  {
    match filter
    case MatchAll => !own.Unnamed? || !peer.Unnamed?
    case Compare(words, len) =>
      var first := Loaded(ZeroBytes(8 * WordCount(len)), len, own);
      var second := Loaded(first, len, peer);
      (!own.Unnamed? && Words64(first) == words) || (!peer.Unnamed? && Words64(second) == words)
  }

  /** A buffer whose tail is zero passes the comparisons exactly when it starts with the target. */
  lemma BufferCheck(t: seq<Byte>, buffer: seq<Byte>)
    requires t != [] && |buffer| == 8 * WordCount(|t|)
    requires forall i :: |t| <= i < |buffer| ==> buffer[i] == 0
    ensures Words64(buffer) == Words64(Padded(t)) <==> buffer[..|t|] == t
  {
    WordsDecideBytes(buffer, Padded(t));
    assert Padded(t)[..|t|] == t;
    assert buffer[..|t|] == t ==> buffer == Padded(t);
  }

  /** The byte that is in the last place of the read when an abstract name, one byte shorter, is loaded for the peer. */
  function Leftover(own: Address, len: nat): Byte
    requires own.WellFormed() && 1 <= len <= UNIX_PATH_MAX
  {
    if own.Path? then own.raw[len - 1] else 0
  }

  /** What the comparisons decide about one address, given that byte. */
  ghost predicate Selected(pattern: seq<Byte>, addr: Address, last: Byte)
    requires pattern != [] && addr.WellFormed() && 1 <= |Target(pattern)| <= UNIX_PATH_MAX
  {
    var t := Target(pattern);
    match addr
    case Unnamed => false
    case Path(raw) => Wanted(pattern, CString(raw))
    case Abstract(raw) => raw[1..|t|] == t[..|t| - 1] && t[|t| - 1] == last
  }

  /** One buffer against the target, for an address just loaded over a buffer with a zero tail. */
  lemma LoadedDecides(pattern: seq<Byte>, buffer: seq<Byte>, addr: Address)
    requires pattern != [] && 0 !in pattern && addr.WellFormed() && !addr.Unnamed?
    requires 1 <= |Target(pattern)| <= UNIX_PATH_MAX && |buffer| == 8 * WordCount(|Target(pattern)|)
    requires forall i :: |Target(pattern)| <= i < |buffer| ==> buffer[i] == 0
    ensures var t := Target(pattern);
            Words64(Loaded(buffer, |t|, addr)) == Words64(Padded(t)) <==> Selected(pattern, addr, buffer[|t| - 1])
  {
    var t := Target(pattern);
    var b := Loaded(buffer, |t|, addr);
    BufferCheck(t, b);
    if addr.Path? {
      TargetDecides(pattern, addr.raw);
      assert b[..|t|] == addr.raw[..|t|];
    } else {
      assert b[..|t|] == addr.raw[1..|t|] + [buffer[|t| - 1]];
      assert t == t[..|t| - 1] + [t[|t| - 1]];
    }
  }

  /** The verdict for every pair of addresses, abstract names included. */
  lemma VerdictBySelection(pattern: seq<Byte>, own: Address, peer: Address)
    requires pattern != [] && 0 !in pattern && BuildFilter(pattern).Ok? && Target(pattern) != []
    requires own.WellFormed() && peer.WellFormed()
    ensures Verdict(BuildFilter(pattern).filter, own, peer)
       <==> Selected(pattern, own, 0) || Selected(pattern, peer, Leftover(own, |Target(pattern)|))
  {
    var t := Target(pattern);
    var zero := ZeroBytes(8 * WordCount(|t|));
    var first := Loaded(zero, |t|, own);
    if !own.Unnamed? { LoadedDecides(pattern, zero, own); }
    if !peer.Unnamed? { LoadedDecides(pattern, first, peer); }
    assert first[|t| - 1] == Leftover(own, |t|);
  }

  /** Compilation fails exactly for the empty pattern and for targets longer than a socket path. */
  lemma CompilesIff(pattern: seq<Byte>)
    ensures BuildFilter(pattern).Ok? <==>
              pattern != [] &&
              |pattern| <= (if pattern[|pattern| - 1] == 0x2A then 109 else if pattern[0] == 0x40 then 108 else 107)
  {
  }

  /** The pattern `*` selects every pair in which one of the two sockets has an address. */
  lemma StarSelectsAll(own: Address, peer: Address)
    requires own.WellFormed() && peer.WellFormed()
    ensures BuildFilter([0x2A]).Ok? && (Verdict(BuildFilter([0x2A]).filter, own, peer) <==> !own.Unnamed? || !peer.Unnamed?)
  {
  }

  lemma PrefixSelected(pattern: seq<Byte>, p: seq<Byte>, addr: Address, last: Byte)
    requires pattern == p + [0x2A] && 1 <= |p| <= 108 && addr.WellFormed()
    ensures Target(pattern) == p
    ensures Selected(pattern, addr, last) <==>
              || (addr.Path? && p <= CString(addr.raw))
              || (addr.Abstract? && addr.raw[1..|p|] == p[..|p| - 1] && p[|p| - 1] == last)
  {
    assert pattern[..|pattern| - 1] == p;
  }

  lemma ExactSelected(pattern: seq<Byte>, q: seq<Byte>, addr: Address, last: Byte)
    requires pattern != [] && pattern[|pattern| - 1] != 0x2A && addr.WellFormed()
    requires q == (if pattern[0] == 0x40 then pattern[1..] else pattern) && |q| <= 107
    ensures Target(pattern) == q + [0]
    ensures Selected(pattern, addr, last) <==>
              (addr.Path? && CString(addr.raw) == q) || (addr.Abstract? && addr.raw[1..|q| + 1] == q && last == 0)
  {
    assert (q + [0])[..|q|] == q;
  }

  /**
   What a pattern p`*` selects: a pair in which the own or the peer file path has the prefix p; or a
   peer whose abstract name begins with all of p but its last byte, if the own file path happens to have
   that byte in that place.
   */
  lemma PrefixVerdict(pattern: seq<Byte>, p: seq<Byte>, own: Address, peer: Address)
    requires pattern == p + [0x2A] && 1 <= |p| <= 108 && 0 !in p && own.WellFormed() && peer.WellFormed()
    ensures BuildFilter(pattern).Ok?
    ensures Verdict(BuildFilter(pattern).filter, own, peer) <==>
              || (own.Path? && p <= CString(own.raw))
              || (peer.Path? && p <= CString(peer.raw))
              || (peer.Abstract? && own.Path? && peer.raw[1..|p|] == p[..|p| - 1] && own.raw[|p| - 1] == p[|p| - 1])
  {
    assert p[|p| - 1] in p;
    PrefixSelected(pattern, p, own, 0);
    PrefixSelected(pattern, p, peer, Leftover(own, |p|));
    VerdictBySelection(pattern, own, peer);
  }

  /**
   What any other pattern selects, q being the pattern without its leading `@` if it has one: a pair in
   which the own or the peer file path is q; or an own abstract name that begins with q; or a peer's,
   unless the own file path left another byte than NUL after it.
   */
  lemma ExactVerdict(pattern: seq<Byte>, q: seq<Byte>, own: Address, peer: Address)
    requires pattern != [] && 0 !in pattern && pattern[|pattern| - 1] != 0x2A
    requires q == (if pattern[0] == 0x40 then pattern[1..] else pattern) && |q| <= 107
    requires own.WellFormed() && peer.WellFormed()
    ensures BuildFilter(pattern).Ok?
    ensures Verdict(BuildFilter(pattern).filter, own, peer) <==>
              || (own.Path? && CString(own.raw) == q)
              || (own.Abstract? && own.raw[1..|q| + 1] == q)
              || (peer.Path? && CString(peer.raw) == q)
              || (peer.Abstract? && peer.raw[1..|q| + 1] == q && (own.Path? ==> own.raw[|q|] == 0))
  {
    ExactSelected(pattern, q, own, 0);
    ExactSelected(pattern, q, peer, Leftover(own, |q| + 1));
    VerdictBySelection(pattern, own, peer);
  }

  /**
   Word filter equals byte match: for every pattern that compiles and every pair of file paths (or
   unnamed sockets), the comparisons succeed exactly when the own or the peer path has the prefix, if
   the pattern ends in `*`, or is the pattern, without its leading `@` if it has one, otherwise.
   */
  lemma FilterIsByteMatch(pattern: seq<Byte>, own: Address, peer: Address)
    requires pattern != [] && 0 !in pattern && BuildFilter(pattern).Ok?
    requires own.WellFormed() && peer.WellFormed() && !own.Abstract? && !peer.Abstract?
    ensures pattern[|pattern| - 1] == 0x2A ==>
              (Verdict(BuildFilter(pattern).filter, own, peer) <==>
                 || (own.Path? && pattern[..|pattern| - 1] <= CString(own.raw))
                 || (peer.Path? && pattern[..|pattern| - 1] <= CString(peer.raw)))
    ensures pattern[|pattern| - 1] != 0x2A && pattern[0] == 0x40 ==>
              (Verdict(BuildFilter(pattern).filter, own, peer) <==>
                 (own.Path? && CString(own.raw) == pattern[1..]) || (peer.Path? && CString(peer.raw) == pattern[1..]))
    ensures pattern[|pattern| - 1] != 0x2A && pattern[0] != 0x40 ==>
              (Verdict(BuildFilter(pattern).filter, own, peer) <==>
                 (own.Path? && CString(own.raw) == pattern) || (peer.Path? && CString(peer.raw) == pattern))
  {
    CompilesIff(pattern);
    if pattern == [0x2A] {
      StarSelectsAll(own, peer);
    } else if pattern[|pattern| - 1] == 0x2A {
      var p := pattern[..|pattern| - 1];
      SliceKeepsOut(pattern, 0, |pattern| - 1);
      assert p == pattern[0..|pattern| - 1] && pattern == p + [0x2A];
      PrefixVerdict(pattern, p, own, peer);
    } else {
      ExactVerdict(pattern, if pattern[0] == 0x40 then pattern[1..] else pattern, own, peer);
    }
  }

  /**
   Abstract names are different. On the sender's own address a prefix pattern never matches, and an
   exact pattern matches every name that merely begins with it: the terminator is never compared.
   */
  lemma AbstractOwn(pattern: seq<Byte>, own: Address, peer: Address)
    requires pattern != [] && 0 !in pattern && BuildFilter(pattern).Ok? && Target(pattern) != []
    requires own.WellFormed() && own.Abstract? && peer.WellFormed()
    ensures var t := Target(pattern);
            Verdict(BuildFilter(pattern).filter, own, peer) <==>
              || (pattern[|pattern| - 1] != 0x2A && own.raw[1..|t|] == t[..|t| - 1])
              || (peer.Path? && Wanted(pattern, CString(peer.raw)))
              || (peer.Abstract? && pattern[|pattern| - 1] != 0x2A && peer.raw[1..|t|] == t[..|t| - 1])
  {
    var t := Target(pattern);
    VerdictBySelection(pattern, own, peer);
    assert pattern[|pattern| - 1] == 0x2A ==> t[|t| - 1] in pattern;
  }

  /** An abstract address with this name, its memory padded with zeros. */
  function AbstractName(name: seq<Byte>): (a: Address)
    requires |name| <= UNIX_PATH_MAX
    ensures a.WellFormed()
  {
    Abstract([0] + name + ZeroBytes(UNIX_PATH_MAX + 1 - |name|))
  }

  /** So a pattern `@name` also selects `@name` followed by any further byte: the wrong socket. */
  lemma ExactSelectsLonger(name: seq<Byte>, x: Byte)
    requires name != [] && |name| < UNIX_PATH_MAX && 0 !in name && name[|name| - 1] != 0x2A
    ensures BuildFilter([0x40] + name).Ok?
    ensures Verdict(BuildFilter([0x40] + name).filter, AbstractName(name + [x]), Unnamed)
  {
    var pattern, own, t := [0x40] + name, AbstractName(name + [x]), name + [0];
    assert pattern[1..] == name && pattern[|pattern| - 1] == name[|name| - 1];
    assert Target(pattern) == t;
    assert own.raw[1..|t|] == name == t[..|t| - 1];
    AbstractOwn(pattern, own, Unnamed);
  }

  /** And a pattern `name*` does not select the abstract socket `name` it is a prefix of. */
  lemma PrefixMissesAbstract(name: seq<Byte>)
    requires name != [] && |name| <= UNIX_PATH_MAX && 0 !in name
    ensures BuildFilter(name + [0x2A]).Ok?
    ensures !Verdict(BuildFilter(name + [0x2A]).filter, AbstractName(name), Unnamed)
  {
    assert Target(name + [0x2A]) == name;
    AbstractOwn(name + [0x2A], AbstractName(name), Unnamed);
  }

  /** The address of a socket bound to this file path, its memory padded with zeros. */
  function FilePath(path: seq<Byte>): (a: Address)
    requires path != [] && path[0] != 0 && |path| <= UNIX_PATH_MAX
    ensures a.WellFormed()
  {
    Path(path + ZeroBytes(UNIX_PATH_MAX + 1 - |path|))
  }

  lemma FilePathIs(path: seq<Byte>)
    requires path != [] && 0 !in path && |path| <= UNIX_PATH_MAX
    ensures path[0] in path && CString(FilePath(path).raw) == path
  {
    var raw := FilePath(path).raw;
    assert raw[..|path| + 1] == path + [0];
    ExactDecides(path, raw);
  }

  /** On file paths too the `@` is dropped: the pattern `@name` selects the file `name` and misses the file `@name`. */
  lemma AtSelectsBareFile(name: seq<Byte>)
    requires name != [] && |name| < UNIX_PATH_MAX && 0 !in name && name[|name| - 1] != 0x2A
    ensures BuildFilter([0x40] + name).Ok? && name[0] in name
    ensures Verdict(BuildFilter([0x40] + name).filter, FilePath(name), Unnamed)
    ensures !Verdict(BuildFilter([0x40] + name).filter, FilePath([0x40] + name), Unnamed)
  {
    var pattern := [0x40] + name;
    assert pattern[|pattern| - 1] == name[|name| - 1];
    assert pattern[1..] == name;
    FilePathIs(name);
    FilePathIs(pattern);
    FilterIsByteMatch(pattern, FilePath(name), Unnamed);
    FilterIsByteMatch(pattern, FilePath(pattern), Unnamed);
  }

  lemma LeftoverUnwanted(name: seq<Byte>, own: seq<Byte>, b: Byte, z: Byte)
    requires |own| == |name| && own != name && z != b
    ensures !(name + [b] <= own + [b]) && !(name + [b] <= name + [z])
  {
    assert (name + [b])[..|name|] == name && (own + [b])[..|name|] == own;
    assert (name + [b])[|name|] == b && (name + [z])[|name|] == z;
  }

  lemma LeftoverCompletes(pattern: seq<Byte>, t: seq<Byte>, path: seq<Byte>, name: seq<Byte>)
    requires pattern != [] && 0 !in pattern && BuildFilter(pattern).Ok? && Target(pattern) == t != []
    requires |path| == |t| <= UNIX_PATH_MAX && path[0] != 0 && path[|t| - 1] == t[|t| - 1]
    requires |name| == |t| && name[..|t| - 1] == t[..|t| - 1]
    ensures Verdict(BuildFilter(pattern).filter, FilePath(path), AbstractName(name))
  {
    var own, peer := FilePath(path), AbstractName(name);
    assert own.raw[|t| - 1] == t[|t| - 1] && peer.raw[1..|t|] == name[..|t| - 1];
    VerdictBySelection(pattern, own, peer);
  }

  /**
   The byte left in the buffer can complete a match: with the pattern `name` b `*`, an own path that is
   not wanted but has b in that place makes the filter select a peer whose abstract name goes on with z.
   */
  lemma LeftoverSelects(name: seq<Byte>, own: seq<Byte>, b: Byte, z: Byte)
    requires |own| == |name| < UNIX_PATH_MAX && own != name && 0 !in name && own[0] != 0 && b != 0 && z != b
    ensures var pattern, path := name + [b] + [0x2A], own + [b];
            && BuildFilter(pattern).Ok?
            && !(name + [b] <= path) && !(name + [b] <= name + [z])
            && Verdict(BuildFilter(pattern).filter, FilePath(path), AbstractName(name + [z]))
  {
    var pattern, t := name + [b] + [0x2A], name + [b];
    assert pattern[..|pattern| - 1] == t;
    LeftoverUnwanted(name, own, b, z);
    assert (name + [z])[..|t| - 1] == name == t[..|t| - 1];
    LeftoverCompletes(pattern, t, own + [b], name + [z]);
  }

  // ---------------------------------------------------------------- the probe's code

  /** bpf_probe_read into the buffer. */
  method ProbeRead(buffer: array<Byte>, raw: seq<Byte>, from: nat, count: nat)
    requires from + count <= |raw| && count <= buffer.Length
    modifies buffer
    ensures buffer[..] == raw[from..from + count] + old(buffer[..])[count..]
  {
    for k := 0 to count
      invariant buffer[..k] == raw[from..from + k] && buffer[k..] == old(buffer[..])[k..]
    {
      buffer[k] := raw[from + k];
      assert raw[from..from + (k + 1)] == raw[from..from + k] + [raw[from + k]];
    }
    assert buffer[..] == buffer[..count] + buffer[count..];
  }

  /** The generated condition. */
  method AllEqual(buffer: array<Byte>, words: seq<Long>) returns (equal: bool)
    requires buffer.Length == 8 * |words|
    ensures equal <==> Words64(buffer[..]) == words
  {
    for i := 0 to |words|
      invariant Words64(buffer[..])[..i] == words[..i]
    {
      assert buffer[8 * i..8 * i + 8] == buffer[..][8 * i..8 * i + 8];
      if LongOf(buffer[8 * i..8 * i + 8]) != words[i] {
        assert Words64(buffer[..])[i] != words[i];
        return false;
      }
      assert Words64(buffer[..])[..i + 1] == Words64(buffer[..])[..i] + [words[i]];
    }
    return true;
  }

  method LoadAddress(buffer: array<Byte>, len: nat, addr: Address)
    requires addr.WellFormed() && !addr.Unnamed? && 1 <= len <= buffer.Length && len <= UNIX_PATH_MAX
    modifies buffer
    ensures buffer[..] == Loaded(old(buffer[..]), len, addr)
  {
    if addr.raw[0] == 0 {
      ProbeRead(buffer, addr.raw, 1, len - 1);
    } else {
      ProbeRead(buffer, addr.raw, 0, len);
    }
  }

  /** A read of length zero minus one: nothing is assumed of what it leaves in the buffer. */
  method OversizedRead(buffer: array<Byte>)
    modifies buffer
  {
    for k := 0 to buffer.Length {
      buffer[k] := *;
    }
  }

  /** The probe. */
  method Probe(filter: Filter, own: Address, peer: Address) returns (matched: bool)
    requires own.WellFormed() && peer.WellFormed()
    requires filter.Compare? ==> 1 <= filter.len <= UNIX_PATH_MAX && |filter.words| == WordCount(filter.len)
    ensures matched == Verdict(filter, own, peer)
  {
    var count := if filter.MatchAll? then 1 else WordCount(filter.len);
    var buffer := new Byte[8 * count](_ => 0);
    assert buffer[..] == ZeroBytes(8 * count);
    matched := false;
    if !own.Unnamed? {
      matched := CheckAddress(filter, buffer, own);
    }
    if !matched && !peer.Unnamed? {
      matched := CheckAddress(filter, buffer, peer);
    }
  }

  /** Read one address and run the generated condition. The match-all filter asks for no bytes, minus one for an abstract name. */
  method CheckAddress(filter: Filter, buffer: array<Byte>, addr: Address) returns (matched: bool)
    requires addr.WellFormed() && !addr.Unnamed?
    requires filter.Compare? ==>
               1 <= filter.len <= UNIX_PATH_MAX && |filter.words| == WordCount(filter.len)
               && buffer.Length == 8 * WordCount(filter.len)
    modifies buffer
    ensures filter.MatchAll? ==> matched
    ensures filter.Compare? ==> buffer[..] == Loaded(old(buffer[..]), filter.len, addr)
    ensures filter.Compare? ==> (matched <==> Words64(buffer[..]) == filter.words)
  {
    match filter
    case MatchAll =>
      if addr.raw[0] == 0 {
        OversizedRead(buffer);
      } else {
        ProbeRead(buffer, addr.raw, 0, 0);
      }
      matched := true;
    case Compare(words, len) =>
      LoadAddress(buffer, len, addr);
      matched := AllEqual(buffer, words);
  }
}
