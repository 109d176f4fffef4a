/**
 * Run-length encoded local declarations (section 5.5.13 of the WebAssembly Core
 * Specification 1.0) and framed sections (section 5.5.2).
 */
module Framing {
  import opened Words
  import opened Leb
  import opened Buffers

  // ---- local declarations -----------------------------------------------------------------

  datatype Group = Group(count: nat, valType: Byte)

  /** How many of the first elements are equal to the first. */
  function RunLength(types: seq<Byte>): (n: nat)
    requires types != []
    ensures 1 <= n <= |types|
  {
    if |types| > 1 && types[1] == types[0] then 1 + RunLength(types[1..]) else 1
  }

  function Groups(types: seq<Byte>): seq<Group> {
    if types == [] then [] else [Group(RunLength(types), types[0])] + Groups(types[RunLength(types)..])
  }

  function Repeat(n: nat, t: Byte): (r: seq<Byte>)
    ensures |r| == n
  {
    if n == 0 then [] else [t] + Repeat(n - 1, t)
  }

  function Ungroup(groups: seq<Group>): seq<Byte> {
    if groups == [] then [] else Repeat(groups[0].count, groups[0].valType) + Ungroup(groups[1..])
  }

  lemma {:induction false} RunIsRepeat(types: seq<Byte>)
    requires types != []
    ensures var n := RunLength(types);
      types == Repeat(n, types[0]) + types[n..] && (n < |types| ==> types[n] != types[0])
  {
    if |types| > 1 && types[1] == types[0] {
      RunIsRepeat(types[1..]);
    } else {
      assert Repeat(0, types[0]) == [];
    }
  }

  /** Grouping loses nothing, and no two neighbouring groups could be merged. */
  lemma {:induction false} GroupsExpandBack(types: seq<Byte>)
    ensures Ungroup(Groups(types)) == types && |Groups(types)| <= |types|
    ensures forall i :: 0 <= i < |Groups(types)| ==> 0 < Groups(types)[i].count <= |types|
    ensures forall i :: 0 <= i < |Groups(types)| - 1 ==> Groups(types)[i].valType != Groups(types)[i + 1].valType
    decreases |types|
  {
    if types != [] {
      var n := RunLength(types);
      var g := Groups(types);
      RunIsRepeat(types);
      GroupsExpandBack(types[n..]);
      assert g[1..] == Groups(types[n..]);
      assert n < |types| ==> g[1].valType == types[n];
      assert forall i :: 1 <= i < |g| ==> g[i] == g[1..][i - 1];
    }
  }

  function EncodeGroups(groups: seq<Group>): seq<Byte> {
    if groups == [] then [] else Uleb(groups[0].count) + [groups[0].valType] + EncodeGroups(groups[1..])
  }

  function EncodeDecls(types: seq<Byte>): seq<Byte> {
    Uleb(|Groups(types)|) + EncodeGroups(Groups(types))
  }

  function ParseGroups(n: nat, bs: seq<Byte>): Parsed<seq<Group>> {
    if n == 0 then Parsed([], bs)
    else match ParseU(32, bs)
      case Malformed => Malformed
      case Parsed(count, rest) =>
        if rest == [] then Malformed
        else match ParseGroups(n - 1, rest[1..])
          case Malformed => Malformed
          case Parsed(groups, rest2) => Parsed([Group(count, rest[0])] + groups, rest2)
  }

  function ParseDecls(bs: seq<Byte>): Parsed<seq<Byte>> {
    match ParseU(32, bs)
    case Malformed => Malformed
    case Parsed(n, rest) =>
      match ParseGroups(n, rest)
      case Malformed => Malformed
      case Parsed(groups, rest2) => Parsed(Ungroup(groups), rest2)
  }

  /** One group in front of the others. */
  lemma ParseOneMore(n: nat, bs: seq<Byte>)
    requires n > 0 && ParseU(32, bs).Parsed? && ParseU(32, bs).rest != []
    ensures var first := ParseU(32, bs); var more := ParseGroups(n - 1, first.rest[1..]);
      more.Parsed? ==> ParseGroups(n, bs) == Parsed([Group(first.value, first.rest[0])] + more.value, more.rest)
  {
    hide ParseU;
  }

  lemma {:induction false} GroupsRoundTrip(groups: seq<Group>, rest: seq<Byte>)
    requires forall g :: g in groups ==> g.count < TWO32
    ensures ParseGroups(|groups|, EncodeGroups(groups) + rest) == Parsed(groups, rest)
  {
    hide ParseU, Uleb, ParseGroups, EncodeGroups;
    NoGroupsParsed(rest);
    if groups != [] {
      var g := groups[0];
      var tail := EncodeGroups(groups[1..]) + rest;
      FirstGroup(groups, rest);
      GroupsRoundTrip(groups[1..], rest);
      ParseOneMore(|groups|, EncodeGroups(groups) + rest);
      assert ([g.valType] + tail)[1..] == tail;
      assert [g] + groups[1..] == groups;
    }
  }

  lemma FirstGroup(groups: seq<Group>, rest: seq<Byte>)
    requires groups != [] && groups[0].count < TWO32
    ensures ParseU(32, EncodeGroups(groups) + rest)
      == Parsed(groups[0].count, [groups[0].valType] + (EncodeGroups(groups[1..]) + rest))
  {
    hide ParseU, Uleb, EncodeGroups;
    var g := groups[0];
    FirstEncoded(groups, rest);
    LebIsFaithful(g.count, 0, 0, [g.valType] + (EncodeGroups(groups[1..]) + rest));
  }

  lemma FirstEncoded(groups: seq<Group>, rest: seq<Byte>)
    requires groups != []
    ensures EncodeGroups(groups) + rest
      == Uleb(groups[0].count) + ([groups[0].valType] + (EncodeGroups(groups[1..]) + rest))
  {
    hide Uleb;
  }

  lemma NoGroupsParsed(bs: seq<Byte>)
    ensures ParseGroups(0, bs) == Parsed([], bs) && EncodeGroups([]) + bs == bs
  {
  }

  /** Declarations are read back as the list of local types they were written for. */
  lemma DeclsRoundTrip(types: seq<Byte>, rest: seq<Byte>)
    requires |types| < TWO32
    ensures ParseDecls(EncodeDecls(types) + rest) == Parsed(types, rest)
  {
    hide ParseU, Uleb, ParseGroups, EncodeGroups, Groups;
    var groups := Groups(types);
    GroupsExpandBack(types);
    var more := EncodeGroups(groups) + rest;
    assert EncodeDecls(types) + rest == Uleb(|groups|) + more;
    LebIsFaithful(|groups|, 0, 0, more);
    GroupsRoundTrip(groups, rest);
  }

  // ---- sections ---------------------------------------------------------------------------

  datatype Section = Section(id: Byte, content: seq<Byte>)

  function EncodeSection(s: Section): seq<Byte> {
    [s.id] + Uleb(|s.content|) + s.content
  }

  function EncodeSections(ss: seq<Section>): seq<Byte> {
    if ss == [] then [] else EncodeSection(ss[0]) + EncodeSections(ss[1..])
  }

  function ParseSections(bs: seq<Byte>): Option<seq<Section>>
    decreases |bs|
  {
    if bs == [] then Some([])
    else match ParseU(32, bs[1..])
      case Malformed => None
      case Parsed(n, rest) =>
        if n > |rest| then None
        else match ParseSections(rest[n..])
          case None => None
          case Some(ss) => Some([Section(bs[0], rest[..n])] + ss)
  }

  /** A sequence of framed sections is taken apart again in only one way. */
  lemma {:induction false} SectionsRoundTrip(ss: seq<Section>)
    requires forall i :: 0 <= i < |ss| ==> |ss[i].content| < TWO32
    ensures ParseSections(EncodeSections(ss)) == Some(ss)
  {
    hide ParseU, Uleb;
    if ss != [] {
      var s := ss[0];
      var bs := EncodeSections(ss);
      var more := s.content + EncodeSections(ss[1..]);
      assert bs[1..] == Uleb(|s.content|) + more;
      LebIsFaithful(|s.content|, 0, 0, more);
      assert more[..|s.content|] == s.content && more[|s.content|..] == EncodeSections(ss[1..]);
      SectionsRoundTrip(ss[1..]);
      assert [s] + ss[1..] == ss;
    }
  }

  // ---- writing them -----------------------------------------------------------------------

  lemma RunLengthStops(types: seq<Byte>, n: nat)
    requires types != [] && 1 <= n <= |types|
    requires forall j :: 0 <= j < n ==> types[j] == types[0]
    requires n < |types| ==> types[n] != types[0]
    ensures RunLength(types) == n
    decreases n
  {
    if n > 1 {
      RunLengthStops(types[1..], n - 1);
    }
  }

  method CountRun(types: seq<Byte>, i: nat) returns (run: nat)
    requires i < |types|
    ensures run == RunLength(types[i..])
  {
    run := 1;
    while i + run < |types| && types[i + run] == types[i]
      invariant 1 <= run <= |types| - i
      invariant forall j :: i <= j < i + run ==> types[j] == types[i]
    {
      run := run + 1;
    }
    RunLengthStops(types[i..], run);
  }

  /** What is left to write after the group that starts at `i`. */
  lemma NextGroup(types: seq<Byte>, i: nat, run: nat)
    requires i < |types| && run == RunLength(types[i..])
    ensures i + run <= |types| && |Groups(types[i..])| == 1 + |Groups(types[i + run..])|
    ensures EncodeGroups(Groups(types[i..])) == Uleb(run) + [types[i]] + EncodeGroups(Groups(types[i + run..]))
  {
    hide Uleb;
    assert types[i..][run..] == types[i + run..];
    assert Groups(types[i..])[1..] == Groups(types[i + run..]);
  }

  method CountGroups(types: seq<Byte>) returns (n: nat)
    ensures n == |Groups(types)|
  {
    hide Groups, RunLength;
    NoGroups();
    n := 0;
    var i := 0;
    assert types[0..] == types;
    while i < |types|
      invariant 0 <= i <= |types| && n + |Groups(types[i..])| == |Groups(types)|
    {
      var run := CountRun(types, i);
      NextGroup(types, i, run);
      n := n + 1;
      i := i + run;
    }
    assert types[i..] == [];
  }

  /** One pass counts the groups, a second one writes them; both find the same groups. */
  method AppendLocalDecls(body: Buffer, types: seq<Byte>) returns (ok: bool)
    requires body.Valid() && |types| < TWO32
    modifies body, body.data
    ensures body.Valid() && (body.data == old(body.data) || fresh(body.data))
    ensures ok ==> body.Contents() == old(body.Contents()) + EncodeDecls(types)
    ensures !ok ==> old(body.Contents()) <= body.Contents() && old(body.len) + |EncodeDecls(types)| > body.Limit()
  {
    hide Uleb, EncodeGroups, Groups, RunLength;
    ghost var before := body.Contents();
    FewGroups(types);
    var groupCount := CountGroups(types);
    ok := body.AppendUleb(groupCount);
    if !ok {
      return;
    }
    var i := 0;
    ghost var written := Uleb(groupCount);
    assert types[0..] == types;
    while i < |types|
      invariant 0 <= i <= |types| && body.Valid() && (body.data == old(body.data) || fresh(body.data))
      invariant body.Contents() == before + written && written + EncodeGroups(Groups(types[i..])) == EncodeDecls(types)
    {
      var run := CountRun(types, i);
      NextGroup(types, i, run);
      ok := AppendGroup(body, run, types[i]);
      if !ok {
        return;
      }
      written := written + (Uleb(run) + [types[i]]);
      i := i + run;
    }
    NoGroups();
    ok := true;
  }

  lemma FewGroups(types: seq<Byte>)
    ensures |Groups(types)| <= |types|
  {
    GroupsExpandBack(types);
  }

  lemma NoGroups()
    ensures Groups([]) == [] && EncodeGroups(Groups([])) == []
  {
  }

  method AppendGroup(body: Buffer, run: nat, t: Byte) returns (ok: bool)
    requires body.Valid() && run < TWO32
    modifies body, body.data
    ensures body.Valid() && (body.data == old(body.data) || fresh(body.data))
    ensures ok ==> body.Contents() == old(body.Contents()) + (Uleb(run) + [t])
    ensures !ok ==> old(body.Contents()) <= body.Contents() && old(body.len) + |Uleb(run) + [t]| > body.Limit()
  {
    ok := body.AppendUleb(run);
    if ok {
      ok := body.AppendByte(t);
    }
  }

  method AppendSection(out: Buffer, id: Byte, section: Buffer) returns (ok: bool)
    requires out.Valid() && section.Valid() && out != section && out.data != section.data && section.len < TWO32
    modifies out, out.data
    ensures out.Valid() && (out.data == old(out.data) || fresh(out.data))
    ensures ok ==> out.Contents() == old(out.Contents()) + EncodeSection(Section(id, section.Contents()))
    ensures !ok ==> old(out.len) + |EncodeSection(Section(id, section.Contents()))| > out.Limit()
  {
    hide Uleb;
    ok := out.AppendByte(id);
    if ok {
      ok := out.AppendUleb(section.len);
      if ok {
        ok := out.AppendBytes(section.data[..section.len]);
      }
    }
  }
}
