/** How tasks travel to the agents: big-endian integers and strings in a growing buffer (src/ec/Task.cc, src/ec/Task.hh). */
module TaskCommands {
  import opened Programs

  // src/inc/include.hh:39-40
  const COMPUTE_COMMAND_LEN := 128
  const TASK_COMMAND_LEN := 1024

  predicate Int32(v: int) {
    -0x8000_0000 <= v < 0x8000_0000
  }

  /** htonl: the two's complement of v, most significant byte first. */
  function IntBytes(v: int): (b: seq<int>)
    ensures |b| == 4 && forall i | 0 <= i < 4 :: 0 <= b[i] < 256
    ensures b[0] * 0x100_0000 + b[1] * 0x1_0000 + b[2] * 0x100 + b[3] == v % 0x1_0000_0000
  {
    var u := v % 0x1_0000_0000;
    FourBytes(u);
    [u / 0x100_0000, u / 0x1_0000 % 256, u / 0x100 % 256, u % 256]
  }

  /** ntohl */
  function BytesInt(b: seq<int>): int
    requires |b| == 4
  {
    var u := b[0] * 0x100_0000 + b[1] * 0x1_0000 + b[2] * 0x100 + b[3];
    if u >= 0x8000_0000 then u - 0x1_0000_0000 else u
  }

  lemma IntRoundTrip(v: int)
    requires Int32(v)
    ensures BytesInt(IntBytes(v)) == v
  {
    var u := v % 0x1_0000_0000;
    FourBytes(u);
    assert u == if v < 0 then v + 0x1_0000_0000 else v;
    assert IntBytes(v) == [u / 0x100_0000, u / 0x1_0000 % 256, u / 0x100 % 256, u % 256];
    hide IntBytes;
  }

  lemma FourBytes(u: nat)
    ensures u == u / 0x100_0000 * 0x100_0000 + u / 0x1_0000 % 256 * 0x1_0000 + u / 0x100 % 256 * 0x100 + u % 256
  {
    var a, b := u / 0x100, u / 0x1_0000;
    assert b == a / 256 && u / 0x100_0000 == b / 256;
  }

  /** A name that fits a command as it is and has no NUL in it. */
  predicate Sendable(s: string) {
    |s| + 4 <= TASK_COMMAND_LEN && forall i | 0 <= i < |s| :: 1 <= s[i] as int < 256
  }

  function CharBytes(s: string): (b: seq<int>)
    ensures |b| == |s| && forall i | 0 <= i < |s| :: b[i] == s[i] as int
  {
    seq(|s|, i requires 0 <= i < |s| => s[i] as int)
  }

  /** What a command is made of. */
  datatype Token = Number(v: int) | Name(s: string)

  predicate TokenOk(t: Token) {
    match t
    case Number(v) => Int32(v)
    case Name(s) => Sendable(s)
  }

  function TokenBytes(t: Token): seq<int> {
    match t
    case Number(v) => IntBytes(v)
    case Name(s) => IntBytes(|s|) + CharBytes(s)
  }

  function Bytes(tokens: seq<Token>): seq<int> {
    if tokens == [] then [] else TokenBytes(tokens[0]) + Bytes(tokens[1..])
  }

  lemma {:induction false} BytesJoin(a: seq<Token>, b: seq<Token>)
    ensures Bytes(a + b) == Bytes(a) + Bytes(b)
  {
    hide TokenBytes, Bytes;
    if a == [] {
      assert a + b == b;
      BytesNone();
    } else {
      BytesJoin(a[1..], b);
      assert (a + b)[1..] == a[1..] + b;
      BytesFirst(a + b);
      BytesFirst(a);
    }
  }

  lemma BytesNone()
    ensures Bytes([]) == []
  {}

  lemma BytesOne(t: Token)
    ensures Bytes([t]) == TokenBytes(t)
  {
    assert [t][1..] == [];
  }

  lemma BytesMore(tokens: seq<Token>, t: Token)
    ensures Bytes(tokens + [t]) == Bytes(tokens) + TokenBytes(t)
  {
    hide TokenBytes;
    BytesJoin(tokens, [t]);
    BytesOne(t);
  }

  lemma BytesFirst(tokens: seq<Token>)
    requires tokens != []
    ensures Bytes(tokens) == TokenBytes(tokens[0]) + Bytes(tokens[1..])
  {
    hide TokenBytes;
  }

  lemma Slices(a: seq<int>, i: nat, bytes: seq<int>, rest: seq<int>)
    requires i <= |a| && a[i..] == bytes + rest
    ensures i + |bytes| <= |a| && a[i..i + |bytes|] == bytes && a[i + |bytes|..] == rest
    ensures forall k | 0 <= k < |bytes| :: a[i + k] == bytes[k]
  {
    forall k | 0 <= k < |bytes| ensures a[i + k] == bytes[k] { assert a[i + k] == a[i..][k]; }
    assert a[i + |bytes|..] == a[i..][|bytes|..];
  }

  /** The bytes from a place on, up to the first NUL. */
  method CString(a: array<int>, from: nat, slen: nat, ghost s: string) returns (toret: string)
    requires Sendable(s) && slen == |s| && from + slen <= a.Length && a[from..from + slen] == CharBytes(s)
    ensures toret == s
  {
    ghost var part := a[from..from + slen];
    forall k | 0 <= k < |part| ensures part[k] == s[k] as int && 1 <= part[k] < 256 {}
    hide CharBytes, Sendable;
    toret := "";
    var i := 0;
    while i < slen && a[from + i] != 0
      invariant 0 <= i <= slen && toret == s[..i] && (i < slen ==> a[from + i] == part[i])
    {
      toret := toret + [a[from + i] as char];
      i := i + 1;
    }
  }

  /** A command under construction or being read: the same buffer and cursor serve both
      (_agCmd, _cmLen and _maxLen of a task; _cmd, _cmdLen and _maxLen of a compute item). */
  class Command {
    var cmd: array<int>
    var len: nat
    var maxLen: nat
    ghost var tokens: seq<Token>

    /** What was written so far says tokens. */
    ghost predicate Writing()
      reads this, cmd
    {
      Valid() && Written() == Bytes(tokens)
    }

    /** What is still to be read says tokens. */
    ghost predicate Reading()
      reads this, cmd
    {
      Valid() && Unread() == Bytes(tokens) && forall i | 0 <= i < |tokens| :: TokenOk(tokens[i])
    }

    ghost predicate Valid()
      reads this
    {
      len <= maxLen == cmd.Length
    }

    ghost function Written(): seq<int>
      requires Valid()
      reads this, cmd
    {
      cmd[..len]
    }

    ghost function Unread(): seq<int>
      requires Valid()
      reads this, cmd
    {
      cmd[len..]
    }

    /** calloc of the initial length */
    constructor (initial: nat)
      requires initial > 0
      ensures Writing() && fresh(cmd) && maxLen == initial && tokens == []
    {
      cmd := new int[initial](_ => 0);
      len, maxLen, tokens := 0, initial, [];
    }

    /** A command that says ts. */
    constructor Received(bytes: seq<int>, ghost ts: seq<Token>)
      requires bytes == Bytes(ts) && forall i | 0 <= i < |ts| :: TokenOk(ts[i])
      ensures Reading() && fresh(cmd) && tokens == ts
    {
      cmd := new int[|bytes|](i requires 0 <= i < |bytes| => bytes[i]);
      len, maxLen, tokens := 0, |bytes|, ts;
    }

    /** src/ec/Task.cc:302-309: twice the room, with what was written. */
    method Extend()
      requires Valid()
      modifies this`cmd, this`maxLen
      ensures Valid() && fresh(cmd) && maxLen == 2 * old(maxLen) && len == old(len) && Written() == old(Written())
    {
      maxLen := maxLen * 2;
      var newcmd := new int[maxLen](_ => 0);
      for i := 0 to len
        invariant cmd == old(cmd) && len == old(len) && cmd[..] == old(cmd[..]) && newcmd != cmd && newcmd.Length == maxLen == 2 * old(maxLen)
        invariant newcmd[..i] == cmd[..i]
      {
        newcmd[i] := cmd[i];
      }
      cmd := newcmd;
    }

    /** memcpy to the cursor */
    method Put(bytes: seq<int>)
      requires Valid() && len + |bytes| <= maxLen
      modifies this`len, cmd
      ensures Valid() && Written() == old(Written()) + bytes && len == old(len) + |bytes|
    {
      ghost var before := cmd[..len];
      for i := 0 to |bytes|
        invariant Valid() && cmd == old(cmd) && len == old(len)
        invariant cmd[..len + i] == before + bytes[..i]
      {
        cmd[len + i] := bytes[i];
      }
      len := len + |bytes|;
    }

    /** src/ec/Task.cc:301-312, src/ec/Task.hh:108-120 */
    method WriteInt(value: int)
      requires Writing() && maxLen >= 4
      modifies this, cmd
      ensures Writing() && maxLen >= old(maxLen) && (cmd == old(cmd) || fresh(cmd))
      ensures tokens == old(tokens) + [Number(value)]
    {
      BytesMore(tokens, Number(value));
      hide IntBytes, Bytes;
      if len + 4 > maxLen {
        Extend();
      }
      Put(IntBytes(value));
      tokens := tokens + [Number(value)];
    }

    /** src/ec/Task.cc:314-330 */
    method WriteString(s: string)
      requires Writing() && maxLen >= TASK_COMMAND_LEN && Sendable(s)
      modifies this, cmd
      ensures Writing() && maxLen >= old(maxLen) && (cmd == old(cmd) || fresh(cmd))
      ensures tokens == old(tokens) + [Name(s)]
    {
      hide IntBytes, Bytes, CharBytes;
      BytesMore(tokens, Name(s));
      var slen := |s|;
      if len + 4 + slen > maxLen {
        Extend();
      }
      Put(IntBytes(slen));
      Put(CharBytes(s));
      tokens := tokens + [Name(s)];
    }

    /** src/ec/Task.cc:332-344, src/ec/Task.hh:122-126 */
    method ReadInt() returns (r: int)
      requires Reading() && tokens != [] && tokens[0].Number?
      modifies this`len, this`tokens
      ensures Reading() && r == old(tokens)[0].v && tokens == old(tokens)[1..]
    {
      hide Bytes;
      BytesFirst(tokens);
      r := NextInt(tokens[0].v, Bytes(tokens[1..]));
      tokens := tokens[1..];
    }

    method NextInt(ghost v: int, ghost rest: seq<int>) returns (r: int)
      requires Valid() && Int32(v) && Unread() == IntBytes(v) + rest
      modifies this`len
      ensures Valid() && r == v && Unread() == rest
    {
      IntRoundTrip(v);
      Slices(cmd[..], len, IntBytes(v), rest);
      hide IntBytes, BytesInt;
      r := BytesInt(cmd[len..len + 4]);
      len := len + 4;
    }

    /** src/ec/Task.cc:346-364: the copy is read up to its first NUL. */
    method ReadString() returns (toret: string)
      requires Reading() && tokens != [] && tokens[0].Name?
      modifies this`len, this`tokens
      ensures Reading() && toret == old(tokens)[0].s && tokens == old(tokens)[1..]
    {
      hide Bytes, IntBytes;
      BytesFirst(tokens);
      ghost var s, rest := tokens[0].s, Bytes(tokens[1..]);
      assert IntBytes(|s|) + CharBytes(s) + rest == IntBytes(|s|) + (CharBytes(s) + rest);
      var slen := NextInt(|s|, CharBytes(s) + rest);
      Slices(cmd[..], len, CharBytes(s), rest);
      toret := CString(cmd, len, slen, s);
      len := len + slen;
      tokens := tokens[1..];
    }
  }

  // ---------------------------------------------------------------------------------------------
  // Tasks as commands

  function Numbers(s: seq<int>): (r: seq<Token>)
    ensures |r| == |s| && forall i | 0 <= i < |s| :: r[i] == Number(s[i])
  {
    seq(|s|, i requires 0 <= i < |s| => Number(s[i]))
  }

  function Listed(s: seq<int>): seq<Token> {
    [Number(|s|)] + Numbers(s)
  }

  function Lists(ss: seq<seq<int>>): seq<Token> {
    if ss == [] then [] else Listed(ss[0]) + Lists(ss[1..])
  }

  function Flag(b: bool): Token {
    Number(if b then 1 else 0)
  }

  function Flags(us: seq<Usage>): seq<Token> {
    if us == [] then [] else [Flag(us[0].same), Flag(us[0].diff)] + Flags(us[1..])
  }

  function ItemTokens(it: ComputeItem<int>): seq<Token> {
    [Number(it.dst)] + (Listed(it.srcs) + (Numbers(it.coefs) + [Flag(it.usage.same), Flag(it.usage.diff)]))
  }

  function Targets(items: seq<ComputeItem<int>>): (r: seq<int>)
    ensures |r| == |items| && forall i | 0 <= i < |items| :: r[i] == items[i].dst
  {
    seq(|items|, i requires 0 <= i < |items| => items[i].dst)
  }

  function TaskTokens(t: Task<int>): seq<Token> {
    match t
    case Read(blk, dagidx, usage) => [Number(0)] + ([Name(blk)] + (Listed(dagidx) + if blk != ZERO then Flags(usage) else []))
    case Send(dagidx, sendto) => [Number(1)] + (Listed(dagidx) + Lists(sendto))
    case Recv(dagidx) => [Number(2)] + Listed(dagidx)
    case Compute(items) => [Number(3)] + Listed(Targets(items))
    case Persist(collect, block) => [Number(4)] + (Listed(collect) + [Name(block)])
  }

  function ItemsOf(t: Task<int>): seq<ComputeItem<int>> {
    if t.Compute? then t.items else []
  }

  predicate AllOk(tokens: seq<Token>) {
    forall i | 0 <= i < |tokens| :: TokenOk(tokens[i])
  }

  /** What the task functions are built for: lists that run in parallel have one length, every number fits
      in 32 bits, and the names fit. */
  predicate TaskOk(t: Task<int>) {
    && AllOk(TaskTokens(t))
    && (t.Read? && t.blk != ZERO ==> |t.usage| == |t.dagidx|)
    && (t.Send? ==> |t.sendto| == |t.dagidx|)
    && ItemsOk(ItemsOf(t))
  }

  predicate ItemOk(it: ComputeItem<int>) {
    |it.coefs| == |it.srcs| && AllOk(ItemTokens(it))
  }

  predicate ItemsOk(items: seq<ComputeItem<int>>) {
    forall i | 0 <= i < |items| :: ItemOk(items[i])
  }

  /** The task as it was; but the usage list of a zero block does not travel. */
  predicate Arrives(t: Task<int>, r: Task<int>) {
    if t.Read? && t.blk == ZERO then r == t.(usage := []) else r == t
  }

  lemma {:induction false} FlagsAt(us: seq<Usage>, i: nat)
    ensures |Flags(us)| == 2 * |us|
    ensures i < |us| ==> Flags(us)[2 * i] == Flag(us[i].same) && Flags(us)[2 * i + 1] == Flag(us[i].diff)
  {
    hide Flag;
    if us != [] { FlagsAt(us[1..], if i == 0 then 0 else i - 1); }
  }

  /** A list of numbers from place k on: its length, then its elements. */
  ghost predicate ListFrom(tokens: seq<Token>, k: nat, s: seq<int>) {
    k + 1 + |s| <= |tokens| && tokens[k] == Number(|s|) && forall i | 0 <= i < |s| :: tokens[k + 1 + i] == Number(s[i])
  }

  lemma ListAt(head: seq<Token>, s: seq<int>, tail: seq<Token>)
    ensures |Listed(s)| == 1 + |s| && ListFrom(head + Listed(s) + tail, |head|, s)
  {
    var ts, k := head + Listed(s) + tail, |head|;
    forall i | 0 <= i < |s| ensures ts[k + 1 + i] == Number(s[i]) {
      assert ts[k + 1 + i] == Listed(s)[1 + i];
    }
  }

  lemma {:induction false} ListsSplit(ss: seq<seq<int>>, i: nat)
    requires i < |ss|
    ensures Lists(ss) == Lists(ss[..i]) + Listed(ss[i]) + Lists(ss[i + 1..])
  {
    hide Listed;
    if i == 0 {
      NoLists(ss[..0]);
      assert Lists(ss) == [] + Listed(ss[0]) + Lists(ss[1..]);
    } else {
      ListsSplit(ss[1..], i - 1);
      assert ss[1..][..i - 1] == ss[..i][1..] && ss[1..][i - 1 + 1..] == ss[i + 1..];
      Regroup(Listed(ss[0]), Lists(ss[..i][1..]), Listed(ss[i]), Lists(ss[i + 1..]));
    }
  }

  lemma Regroup<T>(a: seq<T>, b: seq<T>, c: seq<T>, d: seq<T>)
    ensures a + (b + c + d) == a + b + c + d
  {}

  ghost predicate FlagsFrom(tokens: seq<Token>, k: nat, us: seq<Usage>) {
    |tokens| == k + 2 * |us| && forall i | 0 <= i < |us| :: FlagsAre(tokens, k + 2 * i, us[i])
  }

  ghost predicate FlagsAre(tokens: seq<Token>, k: nat, u: Usage) {
    k + 1 < |tokens| && tokens[k] == Number(if u.same then 1 else 0) && tokens[k + 1] == Number(if u.diff then 1 else 0)
  }

  /** What stands where in the command of a read task (src/ec/Task.cc:99-124): its type, the block, the indices, and for each
      of them whether it is used on this node and on others. */
  lemma ReadLayout(blk: string, dagidx: seq<int>, usage: seq<Usage>)
    ensures var ts := TaskTokens(Read(blk, dagidx, usage));
            && |ts| >= 2 && ts[0] == Number(0) && ts[1] == Name(blk) && ListFrom(ts, 2, dagidx)
            && FlagsFrom(ts, 3 + |dagidx|, if blk != ZERO then usage else [])
  {
    hide Flags, Listed, ListFrom;
    var ts, us, k := TaskTokens(Read(blk, dagidx, usage)), if blk != ZERO then usage else [], 3 + |dagidx|;
    EmptyFlags();
    var head := [Number(0), Name(blk)];
    TokensOfRead(blk, dagidx, usage);
    assert [] + [Number(0)] + [Name(blk)] == head;
    assert ts == head + Listed(dagidx) + Flags(us);
    ListAt(head, dagidx, Flags(us));
    FlagsAt(us, 0);
    forall i | 0 <= i < |us| ensures FlagsAre(ts, k + 2 * i, us[i]) { FlagsAt(us, i); }
  }

  /** Of a send task (src/ec/Task.cc:158-172): the indices, then for each of them the list of its destinations. */
  lemma SendLayout(dagidx: seq<int>, sendto: seq<seq<int>>, i: nat)
    ensures var ts := TaskTokens(Send(dagidx, sendto));
            && |ts| >= 1 && ts[0] == Number(1) && ListFrom(ts, 1, dagidx)
            && (i < |sendto| ==> ListFrom(ts, 2 + |dagidx| + |Lists(sendto[..i])|, sendto[i]))
  {
    hide Lists, Listed, ListFrom;
    var ts := TaskTokens(Send(dagidx, sendto));
    ListAt([Number(1)], dagidx, Lists(sendto));
    assert ts == [Number(1)] + Listed(dagidx) + Lists(sendto);
    if i < |sendto| {
      var head := [Number(1)] + Listed(dagidx) + Lists(sendto[..i]);
      ListsSplit(sendto, i);
      ListAt(head, sendto[i], Lists(sendto[i + 1..]));
      Regroup([Number(1)] + Listed(dagidx), Lists(sendto[..i]), Listed(sendto[i]), Lists(sendto[i + 1..]));
    }
  }

  /** Of the other types: a receive task has the indices, a compute task the targets of its items, a persist task the
      indices and the block's name. */
  lemma OtherLayout(t: Task<int>)
    ensures var ts := TaskTokens(t);
            && (t.Recv? ==> |ts| == 2 + |t.dagidx| && ts[0] == Number(2) && ListFrom(ts, 1, t.dagidx))
            && (t.Compute? ==> |ts| == 2 + |t.items| && ts[0] == Number(3) && ListFrom(ts, 1, Targets(t.items)))
            && (t.Persist? ==> |ts| == 3 + |t.collect| && ts[0] == Number(4) && ListFrom(ts, 1, t.collect) && ts[2 + |t.collect|] == Name(t.block))
  {
    hide Flags, Lists, Listed, ListFrom;
    var ts := TaskTokens(t);
    match t
    case Recv(dagidx) =>
      ListAt([Number(2)], dagidx, []);
      assert ts == [Number(2)] + Listed(dagidx) + [];
    case Compute(items) =>
      ListAt([Number(3)], Targets(items), []);
      assert ts == [Number(3)] + Listed(Targets(items)) + [];
    case Persist(collect, block) =>
      ListAt([Number(4)], collect, [Name(block)]);
      assert ts == [Number(4)] + Listed(collect) + [Name(block)];
    case _ =>
  }

  /** And of a compute item (src/ec/Task.hh:72-98). */
  lemma ItemLayout(it: ComputeItem<int>)
    ensures var ts, n, m := ItemTokens(it), |it.srcs|, |it.coefs|;
            && |ts| == n + m + 4 && ts[0] == Number(it.dst) && ListFrom(ts, 1, it.srcs) && (forall i | 0 <= i < m :: ts[2 + n + i] == Number(it.coefs[i]))
            && ts[n + m + 2] == Number(if it.usage.same then 1 else 0) && ts[n + m + 3] == Number(if it.usage.diff then 1 else 0)
  {}

  method WriteInts(c: Command, s: seq<int>)
    requires c.Writing() && c.maxLen >= 4
    modifies c, c.cmd
    ensures c.Writing() && c.maxLen >= old(c.maxLen) && (c.cmd == old(c.cmd) || fresh(c.cmd))
    ensures c.tokens == old(c.tokens) + Numbers(s)
  {
    hide Bytes;
    for i := 0 to |s|
      invariant c.Writing() && c.maxLen >= old(c.maxLen) && (c.cmd == old(c.cmd) || fresh(c.cmd))
      invariant c.tokens == old(c.tokens) + Numbers(s)[..i]
    {
      c.WriteInt(s[i]);
    }
  }

  method WriteList(c: Command, s: seq<int>)
    requires c.Writing() && c.maxLen >= 4
    modifies c, c.cmd
    ensures c.Writing() && c.maxLen >= old(c.maxLen) && (c.cmd == old(c.cmd) || fresh(c.cmd))
    ensures c.tokens == old(c.tokens) + Listed(s)
  {
    c.WriteInt(|s|);
    WriteInts(c, s);
  }

  lemma {:induction false} ListsMore(ss: seq<seq<int>>, s: seq<int>)
    ensures Lists(ss + [s]) == Lists(ss) + Listed(s)
  {
    hide Listed;
    if ss == [] {
      assert (ss + [s])[1..] == [];
    } else {
      ListsMore(ss[1..], s);
      assert (ss + [s])[1..] == ss[1..] + [s];
    }
  }

  lemma {:induction false} FlagsMore(us: seq<Usage>, u: Usage)
    ensures Flags(us + [u]) == Flags(us) + [Flag(u.same), Flag(u.diff)]
  {
    hide Flag, Flags;
    FlagsHead(us + [u]);
    if us == [] {
      assert (us + [u])[1..] == [];
      EmptyFlags();
    } else {
      FlagsMore(us[1..], u);
      assert (us + [u])[1..] == us[1..] + [u];
      FlagsHead(us);
    }
  }

  lemma EmptyFlags()
    ensures Flags([]) == []
  {}

  lemma FlagsHead(us: seq<Usage>)
    requires us != []
    ensures Flags(us) == [Flag(us[0].same), Flag(us[0].diff)] + Flags(us[1..])
  {
    hide Flag;
  }

  /** src/ec/Task.cc:109-123 */
  method WriteUsage(c: Command, us: seq<Usage>)
    requires c.Writing() && c.maxLen >= 4
    modifies c, c.cmd
    ensures c.Writing() && c.maxLen >= old(c.maxLen) && (c.cmd == old(c.cmd) || fresh(c.cmd))
    ensures c.tokens == old(c.tokens) + Flags(us)
  {
    hide Bytes, Flags;
    assert Flags(us[..0]) == [] by { NoFlags(us[..0]); }
    for i := 0 to |us|
      invariant c.Writing() && c.maxLen >= old(c.maxLen) && (c.cmd == old(c.cmd) || fresh(c.cmd))
      invariant c.tokens == old(c.tokens) + Flags(us[..i])
    {
      c.WriteInt(if us[i].same then 1 else 0);
      c.WriteInt(if us[i].diff then 1 else 0);
      FlagsMore(us[..i], us[i]);
      assert us[..i + 1] == us[..i] + [us[i]];
    }
    assert us[..|us|] == us;
  }

  lemma NoFlags(us: seq<Usage>)
    requires us == []
    ensures Flags(us) == []
  {}

  lemma NoLists(ss: seq<seq<int>>)
    requires ss == []
    ensures Lists(ss) == []
  {}

  /** src/ec/Task.cc:166-171 */
  method WriteLists(c: Command, ss: seq<seq<int>>)
    requires c.Writing() && c.maxLen >= 4
    modifies c, c.cmd
    ensures c.Writing() && c.maxLen >= old(c.maxLen) && (c.cmd == old(c.cmd) || fresh(c.cmd))
    ensures c.tokens == old(c.tokens) + Lists(ss)
  {
    hide Bytes, Lists, Listed;
    assert Lists(ss[..0]) == [] by { NoLists(ss[..0]); }
    for i := 0 to |ss|
      invariant c.Writing() && c.maxLen >= old(c.maxLen) && (c.cmd == old(c.cmd) || fresh(c.cmd))
      invariant c.tokens == old(c.tokens) + Lists(ss[..i])
    {
      WriteList(c, ss[i]);
      ListsMore(ss[..i], ss[i]);
      assert ss[..i + 1] == ss[..i] + [ss[i]];
    }
    assert ss[..|ss|] == ss;
  }

  /** src/ec/Task.cc:99-124 */
  method BuildReadTask(c: Command, blk: string, dagidx: seq<int>, usage: seq<Usage>)
    requires c.Writing() && c.maxLen >= TASK_COMMAND_LEN && c.tokens == [] && Sendable(blk)
    modifies c, c.cmd
    ensures c.Writing() && c.tokens == TaskTokens(Read(blk, dagidx, usage))
  {
    hide Bytes, Flags, Listed, Sendable, TaskTokens;
    TokensOfRead(blk, dagidx, usage);
    c.WriteInt(0);
    c.WriteString(blk);
    WriteList(c, dagidx);
    if blk != ZERO {
      WriteUsage(c, usage);
    }
  }

  lemma TokensOfRead(blk: string, dagidx: seq<int>, usage: seq<Usage>)
    ensures TaskTokens(Read(blk, dagidx, usage)) == [] + [Number(0)] + [Name(blk)] + Listed(dagidx) + if blk != ZERO then Flags(usage) else []
  {
    hide Flags, Listed;
    var dags, flags := Listed(dagidx), if blk != ZERO then Flags(usage) else [];
    assert TaskTokens(Read(blk, dagidx, usage)) == [Number(0)] + ([Name(blk)] + (dags + flags));
    Joined([Number(0)], [Name(blk)], dags, flags);
  }

  lemma Joined<T>(a: seq<T>, b: seq<T>, c: seq<T>, d: seq<T>)
    ensures a + (b + (c + d)) == [] + a + b + c + d
  {
    assert a + (b + (c + d)) == (a + b) + (c + d);
  }

  /** src/ec/Task.cc:158-172 */
  method BuildSendTask(c: Command, dagidx: seq<int>, sendto: seq<seq<int>>)
    requires c.Writing() && c.maxLen >= TASK_COMMAND_LEN && c.tokens == []
    modifies c, c.cmd
    ensures c.Writing() && c.tokens == TaskTokens(Send(dagidx, sendto))
  {
    hide Bytes, Lists, Listed, TaskTokens;
    TokensOfSend(dagidx, sendto);
    c.WriteInt(1);
    WriteList(c, dagidx);
    WriteLists(c, sendto);
  }

  lemma TokensOfSend(dagidx: seq<int>, sendto: seq<seq<int>>)
    ensures TaskTokens(Send(dagidx, sendto)) == [] + [Number(1)] + Listed(dagidx) + Lists(sendto)
  {
    hide Lists, Listed;
  }

  /** src/ec/Task.cc:258-268 */
  method BuildPersistTask(c: Command, collect: seq<int>, block: string)
    requires c.Writing() && c.maxLen >= TASK_COMMAND_LEN && c.tokens == [] && Sendable(block)
    modifies c, c.cmd
    ensures c.Writing() && c.tokens == TaskTokens(Persist(collect, block))
  {
    hide Bytes, Listed, Sendable;
    c.WriteInt(4);
    WriteList(c, collect);
    c.WriteString(block);
  }

  /** src/ec/Task.cc:81-97 */
  method BuildTaskCommand(t: Task<int>) returns (bytes: seq<int>)
    requires TaskOk(t)
    ensures bytes == Bytes(TaskTokens(t))
  {
    BlockSendable(t);
    hide Bytes, Lists, Listed, Flags, Numbers, TaskOk, Sendable;
    var c := new Command(TASK_COMMAND_LEN);
    match t {
      case Read(blk, dagidx, usage) => BuildReadTask(c, blk, dagidx, usage);
      case Send(dagidx, sendto) => BuildSendTask(c, dagidx, sendto);
      case Recv(dagidx) =>
        c.WriteInt(2);
        WriteList(c, dagidx);
      case Compute(items) =>
        c.WriteInt(3);
        WriteList(c, Targets(items));
      case Persist(collect, block) => BuildPersistTask(c, collect, block);
    }
    bytes := c.cmd[..c.len];
  }

  lemma BlockSendable(t: Task<int>)
    requires TaskOk(t)
    ensures t.Read? ==> Sendable(t.blk)
    ensures t.Persist? ==> Sendable(t.block)
  {
    var ts := TaskTokens(t);
    if t.Read? { assert ts[1] == Name(t.blk); }
    if t.Persist? { assert ts[|ts| - 1] == Name(t.block); }
  }

  lemma ItemJoins(tokens: seq<Token>, it: ComputeItem<int>)
    ensures tokens + [Number(it.dst)] + Listed(it.srcs) + Numbers(it.coefs) + [Flag(it.usage.same)] + [Flag(it.usage.diff)]
            == tokens + ItemTokens(it)
  {
    hide Listed, Numbers, Flag;
  }

  method WriteItem(c: Command, it: ComputeItem<int>)
    requires c.Writing() && c.maxLen >= 4
    modifies c, c.cmd
    ensures c.Writing() && c.tokens == old(c.tokens) + ItemTokens(it)
  {
    hide Bytes, Numbers, Listed, ItemTokens, Command.Writing;
    c.WriteInt(it.dst);
    WriteList(c, it.srcs);
    WriteInts(c, it.coefs);
    c.WriteInt(if it.usage.same then 1 else 0);
    c.WriteInt(if it.usage.diff then 1 else 0);
    ItemJoins(old(c.tokens), it);
  }

  /** src/ec/Task.hh:72-99 */
  method BuildItem(it: ComputeItem<int>) returns (bytes: seq<int>)
    requires ItemOk(it)
    ensures bytes == Bytes(ItemTokens(it))
  {
    hide Bytes, ItemTokens, TokenOk;
    var c := new Command(COMPUTE_COMMAND_LEN);
    WriteItem(c, it);
    assert c.tokens == ItemTokens(it);
    bytes := c.cmd[..c.len];
  }

  // ---------------------------------------------------------------------------------------------
  // Reading them back

  method ReadInts(c: Command, num: int, ghost s: seq<int>, ghost rest: seq<Token>) returns (r: seq<int>)
    requires c.Reading() && c.tokens == Numbers(s) + rest && num == |s|
    modifies c`len, c`tokens
    ensures c.Reading() && c.tokens == rest && r == s
  {
    hide Bytes, TokenOk;
    r := [];
    for i := 0 to num
      invariant c.Reading() && c.tokens == Numbers(s)[i..] + rest && r == s[..i]
    {
      var v := c.ReadInt();
      r := r + [v];
    }
  }

  method ReadList(c: Command, ghost s: seq<int>, ghost rest: seq<Token>) returns (r: seq<int>)
    requires c.Reading() && c.tokens == Listed(s) + rest
    modifies c`len, c`tokens
    ensures c.Reading() && c.tokens == rest && r == s
  {
    hide Bytes, TokenOk;
    assert c.tokens == [Number(|s|)] + (Numbers(s) + rest);
    var num := c.ReadInt();
    r := ReadInts(c, num, s, rest);
  }

  /** src/ec/Task.cc:137-155 */
  method ReadUsage(c: Command, num: int, ghost us: seq<Usage>, ghost rest: seq<Token>) returns (r: seq<Usage>)
    requires c.Reading() && c.tokens == Flags(us) + rest && num == |us|
    modifies c`len, c`tokens
    ensures c.Reading() && c.tokens == rest && r == us
  {
    hide Bytes, TokenOk, Flags;
    r := [];
    for i := 0 to num
      invariant c.Reading() && c.tokens == Flags(us[i..]) + rest && r == us[..i]
    {
      FlagsFirst(us[i..], rest);
      assert us[i..][1..] == us[i + 1..];
      var sameint := c.ReadInt();
      var diffint := c.ReadInt();
      r := r + [Usage(sameint == 1, diffint == 1)];
    }
    NoFlags(us[num..]);
  }

  lemma FlagsFirst(us: seq<Usage>, rest: seq<Token>)
    requires us != []
    ensures Flags(us) + rest == [Flag(us[0].same)] + ([Flag(us[0].diff)] + (Flags(us[1..]) + rest))
  {
    hide Flag;
  }

  lemma ListsFirst(ss: seq<seq<int>>, rest: seq<Token>)
    requires ss != []
    ensures Lists(ss) + rest == Listed(ss[0]) + (Lists(ss[1..]) + rest)
  {
    hide Listed;
  }

  /** src/ec/Task.cc:182-190 */
  method ReadLists(c: Command, num: int, ghost ss: seq<seq<int>>, ghost rest: seq<Token>) returns (r: seq<seq<int>>)
    requires c.Reading() && c.tokens == Lists(ss) + rest && num == |ss|
    modifies c`len, c`tokens
    ensures c.Reading() && c.tokens == rest && r == ss
  {
    hide Bytes, TokenOk, Lists, Listed;
    r := [];
    for i := 0 to num
      invariant c.Reading() && c.tokens == Lists(ss[i..]) + rest && r == ss[..i]
    {
      ListsFirst(ss[i..], rest);
      assert ss[i..][1..] == ss[i + 1..];
      var one := ReadList(c, ss[i], Lists(ss[i + 1..]) + rest);
      r := r + [one];
    }
    NoLists(ss[num..]);
  }

  /** src/ec/Task.hh:32-65 */
  method ResolveItem(bytes: seq<int>, ghost it: ComputeItem<int>) returns (r: ComputeItem<int>)
    requires bytes == Bytes(ItemTokens(it)) && ItemOk(it)
    ensures r == it
  {
    hide Bytes, TokenOk, Numbers, Listed;
    var c := new Command.Received(bytes, ItemTokens(it));
    var dstidx := c.ReadInt();
    ghost var flags := [Flag(it.usage.same), Flag(it.usage.diff)];
    assert c.tokens == Listed(it.srcs) + (Numbers(it.coefs) + flags);
    var srclist := ReadList(c, it.srcs, Numbers(it.coefs) + flags);
    var coefs := ReadInts(c, |srclist|, it.coefs, flags);
    var same := c.ReadInt();
    var diff := c.ReadInt();
    r := ComputeItem(dstidx, srclist, coefs, Usage(same != 0, diff != 0));
  }

  /** The lists of compute commands an agent holds, one for each vertex computed. */
  type Queues = map<int, seq<seq<int>>>

  function At(q: Queues, k: int): seq<seq<int>> {
    if k in q then q[k] else []
  }

  /** The commands of those items that compute k, in order. */
  function Commands(items: seq<ComputeItem<int>>, k: int): seq<seq<int>> {
    if items == [] then []
    else (if items[0].dst == k then [Bytes(ItemTokens(items[0]))] else []) + Commands(items[1..], k)
  }

  lemma {:induction false} CommandsMore(items: seq<ComputeItem<int>>, it: ComputeItem<int>, k: int)
    ensures Commands(items + [it], k) == Commands(items, k) + if it.dst == k then [Bytes(ItemTokens(it))] else []
  {
    hide Bytes, ItemTokens;
    if items == [] {
      assert (items + [it])[1..] == [];
    } else {
      CommandsMore(items[1..], it, k);
      assert (items + [it])[1..] == items[1..] + [it];
    }
  }

  /** queues is queues0 with the items' commands sent. */
  ghost predicate Gains(queues0: Queues, queues: Queues, items: seq<ComputeItem<int>>) {
    forall k :: At(queues, k) == At(queues0, k) + Commands(items, k)
  }

  lemma GainsMore(queues0: Queues, queues: Queues, items: seq<ComputeItem<int>>, it: ComputeItem<int>)
    requires Gains(queues0, queues, items)
    ensures Gains(queues0, queues[it.dst := At(queues, it.dst) + [Bytes(ItemTokens(it))]], items + [it])
  {
    hide Bytes, ItemTokens, Commands;
    var queues' := queues[it.dst := At(queues, it.dst) + [Bytes(ItemTokens(it))]];
    forall k ensures At(queues', k) == At(queues0, k) + Commands(items + [it], k) {
      CommandsMore(items, it, k);
      assert At(queues, k) == At(queues0, k) + Commands(items, k);
    }
  }

  /** src/ec/Task.cc:225-230, 293-298: every item's command goes to the end of its list. */
  method SendItems(items: seq<ComputeItem<int>>, queues0: Queues) returns (queues: Queues)
    requires ItemsOk(items)
    ensures forall k :: At(queues, k) == At(queues0, k) + Commands(items, k)
  {
    hide Bytes, ItemTokens, ItemOk, At, Gains;
    queues := queues0;
    NoneSent(queues);
    assert items[..0] == [];
    for i := 0 to |items|
      invariant Gains(queues0, queues, items[..i])
    {
      var command := BuildItem(items[i]);
      assert items[..i + 1] == items[..i] + [items[i]];
      GainsMore(queues0, queues, items[..i], items[i]);
      queues := queues[items[i].dst := At(queues, items[i].dst) + [command]];
    }
    assert items[..|items|] == items;
    GainsAll(queues0, queues, items);
  }

  lemma NoneSent(queues: Queues)
    ensures Gains(queues, queues, [])
  {}

  lemma GainsAll(queues0: Queues, queues: Queues, items: seq<ComputeItem<int>>)
    requires Gains(queues0, queues, items)
    ensures forall k :: At(queues, k) == At(queues0, k) + Commands(items, k)
  {
    hide At, Commands;
  }

  /** The items' commands are at the front of their lists; after is what is behind them. */
  ghost predicate Holds(queues: Queues, items: seq<ComputeItem<int>>, after: Queues) {
    forall k :: At(queues, k) == Commands(items, k) + At(after, k)
  }

  lemma HoldsFirst(queues: Queues, items: seq<ComputeItem<int>>, after: Queues)
    requires Holds(queues, items, after) && items != []
    ensures var key := items[0].dst;
            key in queues && queues[key] != [] && queues[key][0] == Bytes(ItemTokens(items[0])) && Holds(queues[key := queues[key][1..]], items[1..], after)
  {
    hide Bytes, ItemTokens, Commands;
    var key := items[0].dst;
    CommandsFirst(items, key);
    assert At(queues, key) == Commands(items, key) + At(after, key);
    var queues' := queues[key := queues[key][1..]];
    forall k ensures At(queues', k) == Commands(items[1..], k) + At(after, k) {
      CommandsFirst(items, k);
      assert At(queues, k) == Commands(items, k) + At(after, k);
    }
  }

  /** src/ec/Task.cc:233-256: one command for each target, taken from the front of its list. */
  method ResolveItems(targets: seq<int>, queues0: Queues, ghost items: seq<ComputeItem<int>>, ghost after: Queues)
    returns (r: seq<ComputeItem<int>>, queues: Queues)
    requires targets == Targets(items) && ItemsOk(items)
    requires forall k :: At(queues0, k) == Commands(items, k) + At(after, k)
    ensures r == items && forall k :: At(queues, k) == At(after, k)
  {
    assert Holds(queues0, items, after);
    hide Bytes, ItemTokens, ItemOk, Commands, Holds, At;
    r, queues := [], queues0;
    assert items[0..] == items;
    for i := 0 to |targets|
      invariant r == items[..i] && Holds(queues, items[i..], after)
    {
      var key := targets[i];
      HoldsFirst(queues, items[i..], after);
      assert items[i..][1..] == items[i + 1..] && items[i..][0] == items[i];
      var command := queues[key][0];
      queues := queues[key := queues[key][1..]];
      var item := ResolveItem(command, items[i]);
      r := r + [item];
    }
    NoneHeld(queues, items[|targets|..], after);
  }

  lemma NoneHeld(queues: Queues, items: seq<ComputeItem<int>>, after: Queues)
    requires Holds(queues, items, after) && items == []
    ensures forall k :: At(queues, k) == At(after, k)
  {
    forall k ensures At(queues, k) == At(after, k) {
      NoCommands(k);
    }
  }

  lemma CommandsFirst(items: seq<ComputeItem<int>>, k: int)
    requires items != []
    ensures Commands(items, k) == (if items[0].dst == k then [Bytes(ItemTokens(items[0]))] else []) + Commands(items[1..], k)
  {
    hide Bytes, ItemTokens;
  }

  lemma NoCommands(k: int)
    ensures Commands([], k) == []
  {}

  /** src/ec/Task.cc:9-27 and the resolve functions. */
  method ResolveTask(bytes: seq<int>, queues0: Queues, ghost t: Task<int>, ghost after: Queues) returns (r: Task<int>, queues: Queues)
    requires bytes == Bytes(TaskTokens(t)) && TaskOk(t)
    requires forall k :: At(queues0, k) == Commands(ItemsOf(t), k) + At(after, k)
    ensures Arrives(t, r) && forall k :: At(queues, k) == At(after, k)
  {
    hide Bytes, TokenOk, Numbers, Listed, Lists, Flags, Commands, ItemOk;
    queues := queues0;
    var c := new Command.Received(bytes, TaskTokens(t));
    assert c.tokens[0].Number?;
    var kind := c.ReadInt();
    if kind == 0 {
      assert c.tokens == [Name(t.blk)] + (Listed(t.dagidx) + if t.blk != ZERO then Flags(t.usage) else []);
      var blk := c.ReadString();
      var dagidx := ReadList(c, t.dagidx, if t.blk != ZERO then Flags(t.usage) else []);
      var usage := [];
      if blk != ZERO {
        assert c.tokens == Flags(t.usage) + [];
        usage := ReadUsage(c, |dagidx|, t.usage, []);
      }
      r := Read(blk, dagidx, usage);
    } else if kind == 1 {
      assert c.tokens == Listed(t.dagidx) + Lists(t.sendto);
      var dagidx := ReadList(c, t.dagidx, Lists(t.sendto));
      assert c.tokens == Lists(t.sendto) + [];
      var sendto := ReadLists(c, |dagidx|, t.sendto, []);
      r := Send(dagidx, sendto);
    } else if kind == 2 {
      assert c.tokens == Listed(t.dagidx) + [];
      var dagidx := ReadList(c, t.dagidx, []);
      r := Recv(dagidx);
    } else if kind == 3 {
      assert c.tokens == Listed(Targets(t.items)) + [];
      var targets := ReadList(c, Targets(t.items), []);
      var items;
      items, queues := ResolveItems(targets, queues0, t.items, after);
      r := Compute(items);
    } else {
      assert c.tokens == Listed(t.collect) + [Name(t.block)];
      var collect := ReadList(c, t.collect, [Name(t.block)]);
      var block := c.ReadString();
      r := Persist(collect, block);
    }
    if kind != 3 {
      forall k ensures At(queues, k) == At(after, k) { NoCommands(k); }
    }
  }

  /** A task that is built, sent and resolved is the task it was, and nothing else that waits is touched. */
  method TaskRoundTrip(t: Task<int>, queues0: Queues) returns (r: Task<int>, queues: Queues)
    requires TaskOk(t) && forall i | 0 <= i < |ItemsOf(t)| :: At(queues0, ItemsOf(t)[i].dst) == []
    ensures Arrives(t, r) && forall k :: At(queues, k) == At(queues0, k)
  {
    hide Bytes, TaskTokens, AllOk;
    var bytes := BuildTaskCommand(t);
    var sent := SendItems(ItemsOf(t), queues0);
    forall k ensures At(sent, k) == Commands(ItemsOf(t), k) + At(queues0, k) {
      EmptyOrNone(ItemsOf(t), queues0, k);
    }
    hide Commands;
    r, queues := ResolveTask(bytes, sent, t, queues0);
  }

  lemma {:induction false} EmptyOrNone(items: seq<ComputeItem<int>>, queues: Queues, k: int)
    requires forall i | 0 <= i < |items| :: At(queues, items[i].dst) == []
    ensures At(queues, k) == [] || Commands(items, k) == []
  {
    hide Bytes, ItemTokens;
    if items != [] {
      assert At(queues, items[0].dst) == [];
      EmptyOrNone(items[1..], queues, k);
    }
  }
}
