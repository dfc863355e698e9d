/** The part of Redis the server uses: string values with an optional expiry instant
    and one clock. Each function below is one atomic command. Keys have any type, so
    that the same commands describe the store on the wire, whose keys are text, and
    the store seen by the protocols, whose keys are slots. */
module RedisStore {
  import opened Prelude
  import Decimal

  datatype Entry = Entry(value: string, expires: Option<int>)

  /** An expired entry may stay in `data`; it is not live, and every command treats
      it as absent. A key is still live at its expiry instant. */
  datatype Redis<K(==)> = Redis(data: map<K, Entry>, now: int) {

    predicate Live(k: K) {
      k in data && (data[k].expires.Some? ==> now <= data[k].expires.value)
    }

    function Set(k: K, v: string, ttl: int): Redis<K> {
      this.(data := data[k := Entry(v, Some(now + ttl))])
    }

    function SetNX(k: K, v: string, ttl: int): (Redis<K>, bool) {
      if Live(k) then (this, false) else (Set(k, v, ttl), true)
    }

    function Del(k: K): Redis<K> {
      this.(data := data - {k})
    }

    function GetDel(k: K): (Redis<K>, Option<string>) {
      if Live(k) then (Del(k), Some(data[k].value)) else (this, None)
    }

    /** INCR keeps the expiry of a live key and starts an absent one at 1 with none.
        None is the reply for a value that is not an integer. */
    function Incr(k: K): (Redis<K>, Option<int>) {
      if !Live(k) then (this.(data := data[k := Entry("1", None)]), Some(1))
      else match Decimal.ParseInt(data[k].value)
        case None => (this, None)
        case Some(n) => (this.(data := data[k := data[k].(value := Decimal.PrintInt(n + 1))]), Some(n + 1))
    }

    function Expire(k: K, ttl: int): Redis<K> {
      if Live(k) then this.(data := data[k := data[k].(expires := Some(now + ttl))]) else this
    }
  }

  /** SETNX sent over a connection that may fail; None is an error. */
  function TrySetNX<K>(r: Redis<K>, k: K, v: string, ttl: int, fault: Fault): (Redis<K>, Option<bool>) {
    var (after, won) := r.SetNX(k, v, ttl);
    match fault
    case Fine => (after, Some(won))
    case Down => (r, None)
    case Lost => (after, None)
  }

  function TrySet<K>(r: Redis<K>, k: K, v: string, ttl: int, fault: Fault): (Redis<K>, bool) {
    (if fault == Down then r else r.Set(k, v, ttl), fault == Fine)
  }

  function TryDel<K>(r: Redis<K>, k: K, fault: Fault): Redis<K> {
    if fault == Down then r else r.Del(k)
  }

  function TryGetDel<K>(r: Redis<K>, k: K, fault: Fault): (Redis<K>, Option<string>) {
    var (after, value) := r.GetDel(k);
    match fault
    case Fine => (after, value)
    case Down => (r, None)
    case Lost => (after, None)
  }

  function TryIncr<K>(r: Redis<K>, k: K, fault: Fault): (Redis<K>, Option<int>) {
    var (after, n) := r.Incr(k);
    match fault
    case Fine => (after, n)
    case Down => (r, None)
    case Lost => (after, None)
  }

  function TryExpire<K>(r: Redis<K>, k: K, ttl: int, fault: Fault): Redis<K> {
    if fault == Down then r else r.Expire(k, ttl)
  }

  ghost predicate SameEntry<K>(r: Redis<K>, r': Redis<K>, k: K) {
    && (k in r.data <==> k in r'.data)
    && (k in r.data ==> r.data[k] == r'.data[k])
  }

  /** A store on the wire holds what a typed store says, under rendered keys. */
  ghost predicate Represents<K(!new)>(wire: Redis<string>, store: Redis<K>, render: K -> string) {
    && wire.now == store.now
    && forall k :: (render(k) in wire.data <==> k in store.data)
                && (k in store.data ==> wire.data[render(k)] == store.data[k])
  }

  ghost predicate Injective<K(!new)>(render: K -> string) {
    forall j, k :: render(j) == render(k) ==> j == k
  }

  lemma WriteFaithful<K(!new)>(wire: Redis<string>, store: Redis<K>, render: K -> string, k: K, e: Entry)
    requires Injective(render) && Represents(wire, store, render)
    ensures Represents(wire.(data := wire.data[render(k) := e]), store.(data := store.data[k := e]), render)
  {
  }

  lemma DeleteFaithful<K(!new)>(wire: Redis<string>, store: Redis<K>, render: K -> string, k: K)
    requires Injective(render) && Represents(wire, store, render)
    ensures Represents(wire.Del(render(k)), store.Del(k), render)
  {
  }

  /** Under an injective rendering every command on the wire gets the reply that the
      typed store determines, and the two stores go on holding the same. */
  lemma CommandsFaithful<K(!new)>(wire: Redis<string>, store: Redis<K>, render: K -> string, k: K,
                                  v: string, ttl: int, fault: Fault)
    requires Injective(render) && Represents(wire, store, render)
    ensures var (w, a) := TrySetNX(wire, render(k), v, ttl, fault);
      var (r, b) := TrySetNX(store, k, v, ttl, fault); a == b && Represents(w, r, render)
    ensures var (w, a) := TrySet(wire, render(k), v, ttl, fault);
      var (r, b) := TrySet(store, k, v, ttl, fault); a == b && Represents(w, r, render)
    ensures Represents(TryDel(wire, render(k), fault), TryDel(store, k, fault), render)
    ensures var (w, a) := TryGetDel(wire, render(k), fault);
      var (r, b) := TryGetDel(store, k, fault); a == b && Represents(w, r, render)
    ensures var (w, a) := wire.Incr(render(k));
      var (r, b) := store.Incr(k); a == b && Represents(w, r, render)
    ensures Represents(wire.Expire(render(k), ttl), store.Expire(k, ttl), render)
    ensures wire.Live(render(k)) <==> store.Live(k)
  {
    DeleteFaithful(wire, store, render, k);
    WriteFaithful(wire, store, render, k, Entry(v, Some(store.now + ttl)));
    WriteFaithful(wire, store, render, k, Entry("1", None));
    if store.Live(k) {
      var e := store.data[k];
      WriteFaithful(wire, store, render, k, e.(expires := Some(store.now + ttl)));
      match Decimal.ParseInt(e.value)
      case None =>
      case Some(n) => WriteFaithful(wire, store, render, k, e.(value := Decimal.PrintInt(n + 1)));
    }
  }
}
