/**
 * The inventory tables: transactions (`Transacao`), the entry and exit rows that give a
 * transaction its kind (`Entrada`, `Saida`), items, and the inventory profile (`Usuario`) of each
 * login (`User`). The ledger the services work on is the join of a transaction with its entry or
 * exit row.
 */
module Models {
  import opened Wrappers
  import opened PyText
  import opened Decimals
  import opened Dates

  datatype Kind = Entry | Exit

  datatype Transacao = Transacao(
    idTransacao: int,
    codNf: Option<string>,
    codSku: string,
    quantidade: real,
    valorUnit: real,
    codFornecedor: Option<int>)

  datatype Entrada = Entrada(codEntrada: int, transacao: int, matUsuario: int, dataEntrada: Date, horaEntrada: Time)

  datatype Saida = Saida(codPedido: int, transacao: int, matUsuario: int, dataSaida: Date, horaSaida: Time)

  datatype Item = Item(codSku: string, descricaoItem: string, unidMedida: string, active: bool)

  /**
   * One ledger line: a transaction joined with the entry or exit row that points at it. `code`
   * is that row's own key (`cod_entrada` or `cod_pedido`), `date` its date.
   */
  datatype Record = Record(
    id: int,
    kind: Kind,
    sku: string,
    quantidade: real,
    valorUnit: real,
    date: Date,
    code: int,
    codNf: Option<string>,
    supplier: Option<int>)

  /** The column limits of `quantidade` (20 digits, 2 places) and `valor_unit` (12 digits, 2 places). */
  predicate StorableTransacao(t: Transacao) {
    IsQuantity(t.quantidade) && IsUnitValue(t.valorUnit)
  }

  /** `Transacao.valor_total`: quantity times unit value. */
  function ValorTotal(t: Transacao): (v: real)
    ensures StorableTransacao(t) ==> IsTenThousandths(v)
    ensures t.quantidade >= 0.0 && t.valorUnit >= 0.0 ==> v >= 0.0
  {
    CentsProduct(t.quantidade, t.valorUnit);
    t.quantidade * t.valorUnit
  }

  predicate IsTenThousandths(x: real) {
    (x * 10000.0).Floor as real == x * 10000.0
  }

  /** A product of two values with two decimal places has at most four. */
  lemma CentsProduct(a: real, b: real)
    ensures IsCents(a) && IsCents(b) ==> IsTenThousandths(a * b)
  {
    if IsCents(a) && IsCents(b) {
      var m, n := (a * 100.0).Floor, (b * 100.0).Floor;
      assert a * b * 10000.0 == (a * 100.0) * (b * 100.0);
      assert a * b * 10000.0 == (m * n) as real;
    }
  }

  /** `Transacao.is_entrada`: some entry row points at the transaction. */
  predicate IsEntrada(t: Transacao, entradas: seq<Entrada>) {
    exists e | e in entradas :: e.transacao == t.idTransacao
  }

  /** `Transacao.is_saida`: some exit row points at the transaction. */
  predicate IsSaida(t: Transacao, saidas: seq<Saida>) {
    exists s | s in saidas :: s.transacao == t.idTransacao
  }

  function FindTransacao(ts: seq<Transacao>, id: int): (r: Option<Transacao>)
    ensures r.Some? ==> r.value in ts && r.value.idTransacao == id
    ensures r.None? ==> forall t | t in ts :: t.idTransacao != id
  {
    if ts == [] then None
    else if ts[0].idTransacao == id then Some(ts[0])
    else FindTransacao(ts[1..], id)
  }

  function EntryRecords(es: seq<Entrada>, ts: seq<Transacao>): (rs: seq<Record>)
    ensures forall r | r in rs :: r.kind == Entry
    ensures forall r | r in rs :: exists e | e in es :: e.transacao == r.id && e.codEntrada == r.code
    ensures forall r | r in rs :: exists t | t in ts :: t.idTransacao == r.id && t.codSku == r.sku
  {
    if es == [] then []
    else
      var e := es[0];
      var here := match FindTransacao(ts, e.transacao)
        case None => []
        case Some(t) => [Record(t.idTransacao, Entry, t.codSku, t.quantidade, t.valorUnit, e.dataEntrada,
                                e.codEntrada, t.codNf, t.codFornecedor)];
      here + EntryRecords(es[1..], ts)
  }

  function ExitRecords(ss: seq<Saida>, ts: seq<Transacao>): (rs: seq<Record>)
    ensures forall r | r in rs :: r.kind == Exit
    ensures forall r | r in rs :: exists s | s in ss :: s.transacao == r.id && s.codPedido == r.code
    ensures forall r | r in rs :: exists t | t in ts :: t.idTransacao == r.id && t.codSku == r.sku
  {
    if ss == [] then []
    else
      var s := ss[0];
      var here := match FindTransacao(ts, s.transacao)
        case None => []
        case Some(t) => [Record(t.idTransacao, Exit, t.codSku, t.quantidade, t.valorUnit, s.dataSaida,
                                s.codPedido, t.codNf, t.codFornecedor)];
      here + ExitRecords(ss[1..], ts)
  }

  /**
   * The ledger: every entry row and every exit row with its transaction. A transaction with
   * neither row is in no sum; the tables are taken to give a transaction at most one row.
   */
  function Ledger(ts: seq<Transacao>, es: seq<Entrada>, ss: seq<Saida>): seq<Record> {
    EntryRecords(es, ts) + ExitRecords(ss, ts)
  }

  /** A ledger line's kind is the kind of row that points at its transaction. */
  lemma LedgerKindFromRows(ts: seq<Transacao>, es: seq<Entrada>, ss: seq<Saida>, r: Record)
    requires r in Ledger(ts, es, ss)
    ensures exists t | t in ts :: t.idTransacao == r.id
    ensures r.kind == Entry ==> exists t | t in ts :: t.idTransacao == r.id && IsEntrada(t, es)
    ensures r.kind == Exit ==> exists t | t in ts :: t.idTransacao == r.id && IsSaida(t, ss)
  {
    if r in EntryRecords(es, ts) {
      var t :| t in ts && t.idTransacao == r.id && t.codSku == r.sku;
      assert IsEntrada(t, es);
    } else {
      var t :| t in ts && t.idTransacao == r.id && t.codSku == r.sku;
      assert IsSaida(t, ss);
    }
  }

  /** `str(item)`: the SKU, a spaced dash, the description. */
  function ItemStr(i: Item): (s: string)
    ensures StartsWith(s, i.codSku)
    ensures |s| == |i.codSku| + 3 + |i.descricaoItem|
    ensures s[|i.codSku|..|i.codSku| + 3] == " - " && s[|i.codSku| + 3..] == i.descricaoItem
  {
    i.codSku + " - " + i.descricaoItem
  }

  /** `Item(...)` with the `active` field left to its default. */
  function NewItem(codSku: string, descricaoItem: string, unidMedida: string): (i: Item)
    ensures i.active
    ensures i.codSku == codSku && i.descricaoItem == descricaoItem && i.unidMedida == unidMedida
  {
    Item(codSku, descricaoItem, unidMedida, true)
  }

  predicate UniqueSkus(items: seq<Item>) {
    forall i, j :: 0 <= i < j < |items| ==> items[i].codSku != items[j].codSku
  }

  /**
   * Inserting an item: `cod_sku` is the primary key, so a second item with the same SKU is an
   * `IntegrityError` (None).
   */
  function AddItem(items: seq<Item>, it: Item): (r: Option<seq<Item>>)
    ensures r.None? <==> exists k | 0 <= k < |items| :: items[k].codSku == it.codSku
    ensures r.Some? ==> r.value == items + [it]
    ensures UniqueSkus(items) && r.Some? ==> UniqueSkus(r.value)
  {
    if exists k | 0 <= k < |items| :: items[k].codSku == it.codSku then None else Some(items + [it])
  }

  /** `django.contrib.auth`'s user, with the fields the inventory code reads and writes. */
  datatype User = User(
    id: int,
    username: string,
    email: string,
    firstName: string,
    lastName: string,
    password: Option<string>,
    isActive: bool,
    isStaff: bool,
    isSuperuser: bool)

  datatype Usuario = Usuario(matUsuario: int, nomeUsuario: string, authUser: Option<int>, permissions: seq<string>)

  /** `User.get_full_name()`: first and last name joined by a space, stripped. */
  function FullName(u: User): string {
    Strip(u.firstName + " " + u.lastName)
  }

  /** `get_full_name() or username`: the stripped full name, or the username when it is empty. */
  function NomeUsuario(u: User): (n: string)
    ensures FullName(u) != [] ==> n == FullName(u) && !IsSpace(n[0]) && !IsSpace(n[|n| - 1])
    ensures FullName(u) == [] ==> n == u.username
  {
    var full := FullName(u);
    if full != [] then full else u.username
  }

  function MaxMat(us: seq<Usuario>): (m: int)
    requires us != []
    ensures forall u | u in us :: u.matUsuario <= m
    ensures exists u | u in us :: u.matUsuario == m
  {
    if |us| == 1 then us[0].matUsuario
    else
      var rest := MaxMat(us[1..]);
      assert forall u | u in us[1..] :: u in us;
      if us[0].matUsuario >= rest then us[0].matUsuario else rest
  }

  /**
   * The next `mat_usuario`: 1 when there is no `Usuario`, otherwise one more than the largest
   * (`order_by('-mat_usuario').first()`).
   */
  function NextMat(us: seq<Usuario>): (n: int)
    ensures us == [] ==> n == 1
    ensures forall u | u in us :: u.matUsuario < n
    ensures us != [] ==> exists u | u in us :: u.matUsuario == n - 1
  {
    if us == [] then 1 else MaxMat(us) + 1
  }

  predicate UniqueMats(us: seq<Usuario>) {
    forall i, j :: 0 <= i < j < |us| ==> us[i].matUsuario != us[j].matUsuario
  }

  /** The `Usuario` linked to the login `userId`, if any. */
  function UsuarioOf(us: seq<Usuario>, userId: int): (r: Option<Usuario>)
    ensures r.Some? ==> r.value in us && r.value.authUser == Some(userId)
    ensures r.None? <==> forall u | u in us :: u.authUser != Some(userId)
  {
    if us == [] then None
    else if us[0].authUser == Some(userId) then Some(us[0])
    else UsuarioOf(us[1..], userId)
  }

  /** Appending a `Usuario` numbered by `NextMat` keeps the numbers distinct. */
  lemma NextMatKeepsUnique(us: seq<Usuario>, nome: string, user: Option<int>, perms: seq<string>)
    requires UniqueMats(us)
    ensures UniqueMats(us + [Usuario(NextMat(us), nome, user, perms)])
  {
    var us' := us + [Usuario(NextMat(us), nome, user, perms)];
    forall i, j | 0 <= i < j < |us'|
      ensures us'[i].matUsuario != us'[j].matUsuario
    {
      if j == |us| {
        assert us'[i] in us;
      }
    }
  }

  /** Profile numbers are distinct (the primary key), and no login has two profiles (one-to-one). */
  predicate ProfilesValid(us: seq<Usuario>) {
    && UniqueMats(us)
    && (forall i, j :: 0 <= i < j < |us| && us[i].authUser.Some? ==> us[i].authUser != us[j].authUser)
  }

  /** Appending a profile numbered by `NextMat`, for a login no profile has, keeps the profiles valid. */
  lemma NewProfileKeepsValid(us: seq<Usuario>, row: Usuario)
    requires ProfilesValid(us)
    requires row.matUsuario == NextMat(us)
    requires forall v | v in us :: v.authUser != row.authUser
    ensures ProfilesValid(us + [row])
  {
    NextMatKeepsUnique(us, row.nomeUsuario, row.authUser, row.permissions);
    assert us + [Usuario(NextMat(us), row.nomeUsuario, row.authUser, row.permissions)] == us + [row];
    var us' := us + [row];
    forall i, j | 0 <= i < j < |us'| && us'[i].authUser.Some?
      ensures us'[i].authUser != us'[j].authUser
    {
      if j == |us| {
        assert us'[i] in us;
      }
    }
  }

  /** The login users and the inventory profiles, the two tables the user code writes. */
  class UserStore {
    var users: seq<User>
    var usuarios: seq<Usuario>

    predicate Valid()
      reads this`usuarios
    {
      ProfilesValid(usuarios)
    }

    constructor ()
      ensures users == [] && usuarios == []
      ensures Valid()
    {
      users := [];
      usuarios := [];
    }

    /**
     * The `post_save` handler for a newly created `User`: a profile numbered `NextMat`, named by
     * `NomeUsuario`, linked to the user, with the default empty permission list.
     */
    method CreateUsuario(u: User)
      requires Valid()
      requires UsuarioOf(usuarios, u.id).None?
      modifies this
      ensures Valid()
      ensures users == old(users)
      ensures usuarios == old(usuarios) + [Usuario(NextMat(old(usuarios)), NomeUsuario(u), Some(u.id), [])]
    {
      var row := Usuario(NextMat(usuarios), NomeUsuario(u), Some(u.id), []);
      NewProfileKeepsValid(usuarios, row);
      usuarios := usuarios + [row];
    }
  }
}
