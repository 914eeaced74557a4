/** The key-value server: a store, and a memo of the modifications not yet acknowledged. */
module KvServer {
  import opened Kv

  datatype AppendState = Modify | Ack

  datatype PutAppendArgs = PutAppendArgs(key: string, value: string, id: int, state: AppendState)

  datatype Server = Server(store: Store, ids: map<int, string>)

  datatype Request = GetRequest(key: string) | PutRequest(args: PutAppendArgs) | AppendRequest(args: PutAppendArgs)

  /** A modification is to be carried out if it is not an acknowledgement and not in the memo. */
  predicate NeedsChange(s: Server, args: PutAppendArgs) {
    args.state == Modify && args.id !in s.ids
  }

  /** What a request does to the server, and its answer. */
  function Handle(s: Server, r: Request): (Server, string) {
    match r
    case GetRequest(key) => (s, Get(s.store, key))
    case PutRequest(args) =>
      if args.state == Ack then (s.(ids := s.ids - {args.id}), "")
      else if args.id in s.ids then (s, s.ids[args.id])
      else (Server(s.store[args.key := args.value], s.ids[args.id := args.value]), Get(s.store, args.key))
    case AppendRequest(args) =>
      if args.state == Ack then (s.(ids := s.ids - {args.id}), "")
      else if args.id in s.ids then (s, s.ids[args.id])
      else
        var old_ := Get(s.store, args.key);
        (Server(s.store[args.key := old_ + args.value], s.ids[args.id := old_]), old_)
  }

  class KVServer {
    var storeMap: map<string, string>
    var idMap: map<int, string>

    ghost function View(): Server
      reads this
    {
      Server(storeMap, idMap)
    }

    constructor ()
      ensures View() == Server(map[], map[])
    {
      storeMap, idMap := map[], map[];
    }

    method GetHandler(key: string) returns (value: string)
      ensures (View(), value) == Handle(View(), GetRequest(key))
      ensures value == if key in storeMap then storeMap[key] else ""
    {
      if key in storeMap { value := storeMap[key]; } else { value := ""; }
    }

    /** True if the modification is to be carried out; an acknowledgement clears the memo. */
    method CheckIfNeedChange(args: PutAppendArgs) returns (need: bool)
      modifies this
      ensures need == NeedsChange(old(View()), args)
      ensures storeMap == old(storeMap) && idMap == if args.state == Ack then old(idMap) - {args.id} else old(idMap)
    {
      if args.state == Ack {
        idMap := idMap - {args.id};
        return false;
      }
      return args.id !in idMap;
    }

    method Put(args: PutAppendArgs) returns (value: string)
      modifies this
      ensures (View(), value) == Handle(old(View()), PutRequest(args))
      ensures args.state == Ack ==> storeMap == old(storeMap) && idMap == old(idMap) - {args.id} && value == ""
      ensures args.state == Modify && args.id in old(idMap) ==>
                storeMap == old(storeMap) && idMap == old(idMap) && value == old(idMap)[args.id]
      ensures args.state == Modify && args.id !in old(idMap) ==>
                && value == (if args.key in old(storeMap) then old(storeMap)[args.key] else "")
                && storeMap == old(storeMap)[args.key := args.value]
                && idMap == old(idMap)[args.id := args.value]
    {
      var ok := CheckIfNeedChange(args);
      if !ok {
        value := if args.id in idMap then idMap[args.id] else "";
        return;
      }
      value := if args.key in storeMap then storeMap[args.key] else "";
      storeMap := storeMap[args.key := args.value];
      idMap := idMap[args.id := args.value];
    }

    method Append(args: PutAppendArgs) returns (value: string)
      modifies this
      ensures (View(), value) == Handle(old(View()), AppendRequest(args))
      ensures args.state == Ack ==> storeMap == old(storeMap) && idMap == old(idMap) - {args.id} && value == ""
      ensures args.state == Modify && args.id in old(idMap) ==>
                storeMap == old(storeMap) && idMap == old(idMap) && value == old(idMap)[args.id]
      ensures args.state == Modify && args.id !in old(idMap) ==>
                && value == (if args.key in old(storeMap) then old(storeMap)[args.key] else "")
                && storeMap == old(storeMap)[args.key := value + args.value]
                && idMap == old(idMap)[args.id := value]
    {
      var ok := CheckIfNeedChange(args);
      if !ok {
        value := if args.id in idMap then idMap[args.id] else "";
        return;
      }
      value := if args.key in storeMap then storeMap[args.key] else "";
      assert "" + args.value == args.value;
      if args.key !in storeMap {
        storeMap := storeMap[args.key := args.value];
      } else {
        storeMap := storeMap[args.key := value + args.value];
      }
      idMap := idMap[args.id := value];
    }
  }
}
