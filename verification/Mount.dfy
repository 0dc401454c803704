/** Path resolution: one COMPOUND of SEQUENCE, PUTROOTFH, a LOOKUP per component
    and GETFH, in a slot that is free again whatever becomes of the call. */
module Mount {
  import opened Wire
  import opened Xdr
  import opened XdrStructs
  import opened Rpc
  import opened Nfs4Types
  import opened CompoundArgs
  import opened SessionSlots
  import opened NfsClient
  import opened Options
  import opened NfsPath

  /** The components of a path, as the strings they are. */
  function Names(path: Utf8): (names: seq<Utf8>)
    ensures names == ToNfsComponents(path)
  {
    var cs := ToNfsComponents(path);
    AllUtf8(path);
    seq(|cs|, i requires 0 <= i < |cs| => cs[i])
  }

  lemma {:induction false} AllUtf8(path: Utf8)
    ensures forall i | 0 <= i < |ToNfsComponents(path)| :: ValidUtf8(ToNfsComponents(path)[i])
  {
    hide ToNfsComponents;
    forall i | 0 <= i < |ToNfsComponents(path)|
      ensures ValidUtf8(ToNfsComponents(path)[i])
    {
      ComponentsClean(path, i);
    }
  }

  function ResolveTag(): (t: Utf8)
    ensures |t| == 12
  {
    Ascii("resolve_path")
  }

  function Lookups(names: seq<Utf8>): seq<NfsArgOp4> {
    seq(|names|, i requires 0 <= i < |names| => NfsArgOp4.Lookup(names[i]))
  }

  function ResolveArgs(id: SessionId4, grant: Grant, names: seq<Utf8>): Compound4args
    requires grant.slot < U32_MODULUS
  {
    Compound4args(ResolveTag(), NFS4_MINOR_VERSION,
                  [NfsArgOp4.Sequence(id, grant.sequence, grant.slot, grant.highest, false), NfsArgOp4.PutRootFh]
                  + Lookups(names) + [NfsArgOp4.GetFh])
  }

  /** The handle in the last result of a response that succeeded as a whole. */
  function TakeHandle(answer: Outcome<Compound4res>): Outcome<NfsFh4> {
    var res :- answer;
    if res.status != NFS4_OK then Fault(Nfs(res.status))
    else if res.resarray == [] then Fault(UnexpectedResponse("GetFh"))
    else
      match res.resarray[|res.resarray| - 1]
      case GetFh(r) => BodyOf(r, "GetFh4res with object")
      case _ => Fault(UnexpectedResponse("GetFh"))
  }

  function ResolveStep(st: ClientState, auth: AuthFlavor, path: Utf8): (r: (ClientState, Outcome<NfsFh4>))
    requires st.Valid()
    ensures r.0.Valid()
  {
    hide CompoundStep, ResolveArgs, Slots.Alloc, Slots.Release;
    if st.session.None? then (st, Fault(NoSession))
    else
      var s := st.session.value;
      var (taken, grant) := s.slots.Alloc();
      if grant.None? then (ClientState(st.line, Some(s.(slots := taken))), Fault(NoSession))
      else
        var (line, answer) := CompoundStep(st.line, auth, ResolveArgs(s.sessionId, grant.value, Names(path)));
        (ClientState(line, Some(s.(slots := taken.Release(grant.value.slot)))), TakeHandle(answer))
  }

  lemma {:induction false} NoLookups()
    ensures Lookups([]) == []
  {
  }

  lemma {:induction false} LookupAdded(names: seq<Utf8>, i: nat)
    requires i < |names|
    ensures Lookups(names[..i + 1]) == Lookups(names[..i]) + [NfsArgOp4.Lookup(names[i])]
  {
  }

  class MountHandle {
    const client: Nfs4Client

    constructor (c: Nfs4Client)
      ensures client == c
    {
      client := c;
    }

    method ResolvePath(path: Utf8) returns (r: Outcome<NfsFh4>)
      requires client.Valid()
      modifies client.transport, client.transport.stream
      modifies if client.session == null then {} else {client.session.table.inUse, client.session.table.sequenceIds}
      ensures client.Valid() && (client.View(), r) == ResolveStep(old(client.View()), client.auth, path)
    {
      hide CompoundStep, ResolveArgs, Slots.Alloc, Slots.Release, TakeHandle;
      var components := Names(path);
      if client.session == null {
        return Fault(NoSession);
      }
      var session := client.session;
      var grant := session.table.TryAllocSlot();
      if grant.None? {
        return Fault(NoSession);
      }
      var args := BuildArgs(session.sessionId, grant.value, components);
      var answer := client.Compound(args);
      session.table.ReleaseSlot(grant.value.slot);
      return TakeHandle(answer);
    }

    /** The builder calls of resolve_path, with its loop over the components. */
    method BuildArgs(id: SessionId4, grant: Grant, components: seq<Utf8>) returns (args: Compound4args)
      requires grant.slot < U32_MODULUS
      ensures args == ResolveArgs(id, grant, components)
    {
      hide ResolveTag, Lookups;
      var builder := new CompoundBuilder();
      builder.Tag(ResolveTag());
      builder.Sequence(id, grant.sequence, grant.slot, grant.highest);
      builder.PutRootFh();
      ghost var head := [NfsArgOp4.Sequence(id, grant.sequence, grant.slot, grant.highest, false), NfsArgOp4.PutRootFh];
      assert builder.ops == head;
      NoLookups();
      assert components[..0] == [] && head + [] == head;
      for i := 0 to |components|
        invariant fresh(builder) && builder.tag == ResolveTag()
        invariant builder.ops == head + Lookups(components[..i])
      {
        LookupAdded(components, i);
        builder.Lookup(components[i]);
        assert head + Lookups(components[..i]) + [NfsArgOp4.Lookup(components[i])]
            == head + (Lookups(components[..i]) + [NfsArgOp4.Lookup(components[i])]);
      }
      builder.GetFh();
      args := builder.Build();
      assert components[..|components|] == components;
    }
  }
}
