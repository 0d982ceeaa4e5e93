/**
 * ReservaService: the reservation table and its seven operations.
 *
 * The EF Core DbSet is modelled as a sequence of records in store order,
 * keyed by `id`. The pure functions below describe each operation on a
 * table value; the class ReservaService holds the table and its methods
 * change it in place, each proved against the matching function.
 */
module Services {
  import opened Models

  /** The ids present in a table. */
  function Ids(tabela: seq<ReservaModel>): set<int>
  {
    set r | r in tabela :: r.id
  }

  /** The primary key holds: no two records share an id. */
  predicate IdsUnicos(tabela: seq<ReservaModel>)
  {
    forall i, j :: 0 <= i < j < |tabela| ==> tabela[i].id != tabela[j].id
  }

  /** LINQ `Where`: the records that satisfy `p`, in store order. */
  function Filtrar(tabela: seq<ReservaModel>, p: ReservaModel -> bool): (r: seq<ReservaModel>)
    ensures |r| <= |tabela|
    ensures forall x :: x in r <==> x in tabela && p(x)
  {
    if tabela == [] then []
    else
      assert forall x :: x in tabela <==> x == tabela[0] || x in tabela[1..];
      (if p(tabela[0]) then [tabela[0]] else []) + Filtrar(tabela[1..], p)
  }

  /** Filtering distributes over concatenation, so it keeps the store order. */
  lemma {:induction false} FiltrarConcatenacao(a: seq<ReservaModel>, b: seq<ReservaModel>, p: ReservaModel -> bool)
    ensures Filtrar(a + b, p) == Filtrar(a, p) + Filtrar(b, p)
  {
    if a == [] {
      assert a + b == b;
    } else {
      assert (a + b)[1..] == a[1..] + b;
      FiltrarConcatenacao(a[1..], b, p);
    }
  }

  /** A filter every record passes returns the whole table, in the same order. */
  lemma {:induction false} FiltrarTudo(tabela: seq<ReservaModel>, p: ReservaModel -> bool)
    requires forall x :: x in tabela ==> p(x)
    ensures Filtrar(tabela, p) == tabela
  {
    if tabela != [] {
      FiltrarTudo(tabela[1..], p);
    }
  }

  /** The filter of ObterReservasPorMesa: `r.NumeroMesa == numeroMesa`. */
  function NaMesa(numeroMesa: int): ReservaModel -> bool
  {
    (x: ReservaModel) => x.numeroMesa == numeroMesa
  }

  /** The filter of ObterReservasPorData: `r.DataReserva.Date == data.Date`. */
  function NaData(data: DateTime): ReservaModel -> bool
  {
    (x: ReservaModel) => Data(x.dataReserva) == Data(data)
  }

  /** Every record but the one with this id. */
  function OutroId(id: int): ReservaModel -> bool
  {
    (x: ReservaModel) => x.id != id
  }

  /** The position of the first record with this id (EF `Find` / `FirstOrDefault`), if any. */
  function IndiceDe(tabela: seq<ReservaModel>, id: int): (r: Option<nat>)
    ensures r.Some? ==> r.value < |tabela| && tabela[r.value].id == id
    ensures r.Some? ==> forall j :: 0 <= j < r.value ==> tabela[j].id != id
    ensures r.None? <==> id !in Ids(tabela)
  {
    if tabela == [] then None
    else if tabela[0].id == id then Some(0)
    else
      assert Ids(tabela) == {tabela[0].id} + Ids(tabela[1..]);
      match IndiceDe(tabela[1..], id)
      case None => None
      case Some(k) => Some(k + 1)
  }

  /** With unique ids, a record with id `id` sits only at the position IndiceDe finds. */
  lemma IndiceUnico(tabela: seq<ReservaModel>, id: int, i: nat)
    requires IdsUnicos(tabela)
    requires i < |tabela| && tabela[i].id == id
    ensures IndiceDe(tabela, id) == Some(i)
  {
  }

  /** The record with this id, or null. */
  function ProcurarPorId(tabela: seq<ReservaModel>, id: int): (r: Option<ReservaModel>)
    ensures r.Some? ==> r.value in tabela && r.value.id == id
    ensures r.None? <==> id !in Ids(tabela)
  {
    match IndiceDe(tabela, id)
    case None => None
    case Some(i) => Some(tabela[i])
  }

  /** The record CriarReserva stores: the request with a fresh id and DataCriacao stamped. */
  function Gravar(pedido: ReservaModel, id: int, agora: DateTime): (r: ReservaModel)
    ensures r.id == id && r.dataCriacao == agora
    ensures r.(id := pedido.id, dataCriacao := pedido.dataCriacao) == pedido
  {
    pedido.(dataCriacao := agora, id := id)
  }

  /** Appending a record with an unused id keeps ids unique, and the record is then found by its id. */
  lemma GravarEncontra(tabela: seq<ReservaModel>, pedido: ReservaModel, id: int, agora: DateTime)
    requires IdsUnicos(tabela) && id !in Ids(tabela)
    ensures IdsUnicos(tabela + [Gravar(pedido, id, agora)])
    ensures ProcurarPorId(tabela + [Gravar(pedido, id, agora)], id) == Some(Gravar(pedido, id, agora))
    ensures Ids(tabela + [Gravar(pedido, id, agora)]) == Ids(tabela) + {id}
  {
  }

  /** Some id is always free: the database identity column never runs dry in this model. */
  lemma IdLivre(tabela: seq<ReservaModel>) returns (id: int)
    ensures id !in Ids(tabela)
  {
    id := 1 + MaiorModulo(tabela);
  }

  /** A bound on the absolute value of every id in the table. */
  function MaiorModulo(tabela: seq<ReservaModel>): (m: nat)
    ensures forall r :: r in tabela ==> r.id <= m && -r.id <= m
  {
    if tabela == [] then 0
    else
      var resto := MaiorModulo(tabela[1..]);
      var a := if tabela[0].id < 0 then -tabela[0].id else tabela[0].id;
      assert forall r :: r in tabela ==> r == tabela[0] || r in tabela[1..];
      if a < resto then resto else a
  }

  /** The five assignments of AtualizarReserva: the request's fields over the stored record. */
  function Sobrescrever(existente: ReservaModel, pedido: ReservaModel): (r: ReservaModel)
    ensures r == pedido.(id := existente.id, dataCriacao := existente.dataCriacao)
  {
    existente.(nomeCliente := pedido.nomeCliente,
               dataReserva := pedido.dataReserva,
               horarioReserva := pedido.horarioReserva,
               numeroMesa := pedido.numeroMesa,
               numeroPessoas := pedido.numeroPessoas)
  }

  /** The answer of AtualizarReserva and the table after it. */
  datatype Atualizacao = Atualizacao(resultado: Option<ReservaModel>, tabela: seq<ReservaModel>)

  /** AtualizarReserva on a table value: overwrite the record with the request's id, if any. */
  function Atualizar(tabela: seq<ReservaModel>, pedido: ReservaModel): (a: Atualizacao)
    ensures a.resultado.None? <==> pedido.id !in Ids(tabela)
    ensures a.resultado.None? ==> a.tabela == tabela
    ensures |a.tabela| == |tabela|
  {
    match IndiceDe(tabela, pedido.id)
    case None => Atualizacao(None, tabela)
    case Some(i) =>
      var novo := Sobrescrever(tabela[i], pedido);
      Atualizacao(Some(novo), tabela[i := novo])
  }

  /**
   * With unique ids, updating rewrites exactly the record with the request's
   * id, keeping its id and DataCriacao, leaves every other record as it was,
   * returns the rewritten record, and keeps ids unique.
   */
  lemma AtualizarSoOAlvo(tabela: seq<ReservaModel>, pedido: ReservaModel)
    requires IdsUnicos(tabela)
    ensures var a := Atualizar(tabela, pedido);
      && IdsUnicos(a.tabela)
      && Ids(a.tabela) == Ids(tabela)
      && forall i :: 0 <= i < |tabela| ==>
           a.tabela[i] == if tabela[i].id == pedido.id then Sobrescrever(tabela[i], pedido) else tabela[i]
    ensures var a := Atualizar(tabela, pedido);
      a.resultado.Some? ==> a.resultado.value.id == pedido.id && ProcurarPorId(a.tabela, pedido.id) == a.resultado
  {
    var a := Atualizar(tabela, pedido);
    match IndiceDe(tabela, pedido.id)
    case None =>
    case Some(k) =>
      forall i | 0 <= i < |tabela| ensures a.tabela[i].id == tabela[i].id {
      }
      assert forall x :: x in a.tabela ==> exists i :: 0 <= i < |a.tabela| && a.tabela[i] == x;
      assert forall x :: x in tabela ==> exists i :: 0 <= i < |tabela| && tabela[i] == x;
      assert Ids(a.tabela) == Ids(tabela);
      IndiceUnico(a.tabela, pedido.id, k);
  }

  /** The answer of CancelarReserva and the table after it. */
  datatype Remocao = Remocao(removida: bool, tabela: seq<ReservaModel>)

  /** CancelarReserva on a table value: remove the record with this id, if any. */
  function Remover(tabela: seq<ReservaModel>, id: int): (r: Remocao)
    ensures r.removida <==> id in Ids(tabela)
    ensures !r.removida ==> r.tabela == tabela
    ensures r.removida ==> |r.tabela| == |tabela| - 1
  {
    match IndiceDe(tabela, id)
    case None => Remocao(false, tabela)
    case Some(i) => Remocao(true, tabela[..i] + tabela[i + 1..])
  }

  /** Dropping position k of a table with unique ids keeps them unique and drops the only record with that id. */
  lemma SemPosicao(tabela: seq<ReservaModel>, k: nat)
    requires IdsUnicos(tabela) && k < |tabela|
    ensures IdsUnicos(tabela[..k] + tabela[k + 1..])
    ensures forall x :: x in tabela[..k] + tabela[k + 1..] ==> OutroId(tabela[k].id)(x)
  {
  }

  /** With unique ids, no record after the first shares its id. */
  lemma SemPrimeiroEFiltrar(tabela: seq<ReservaModel>)
    requires IdsUnicos(tabela) && tabela != []
    ensures Filtrar(tabela, OutroId(tabela[0].id)) == tabela[1..]
  {
    var p, resto := OutroId(tabela[0].id), tabela[1..];
    forall x | x in resto ensures p(x) {
      var j :| 0 <= j < |resto| && resto[j] == x;
      assert tabela[j + 1] == x;
    }
    FiltrarTudo(resto, p);
  }

  /** The tail of a table with unique ids has unique ids. */
  lemma IdsUnicosResto(tabela: seq<ReservaModel>)
    requires IdsUnicos(tabela) && tabela != []
    ensures IdsUnicos(tabela[1..])
  {
  }

  /** Dropping position k of a table with unique ids is filtering out the id at k. */
  lemma {:induction false} SemPosicaoEFiltrar(tabela: seq<ReservaModel>, k: nat)
    requires IdsUnicos(tabela) && k < |tabela|
    ensures Filtrar(tabela, OutroId(tabela[k].id)) == tabela[..k] + tabela[k + 1..]
  {
    if k == 0 {
      SemPrimeiroEFiltrar(tabela);
    } else {
      var p, resto := OutroId(tabela[k].id), tabela[1..];
      IdsUnicosResto(tabela);
      assert resto[k - 1] == tabela[k];
      SemPosicaoEFiltrar(resto, k - 1);
      assert p(tabela[0]);
      calc {
        Filtrar(tabela, p);
        [tabela[0]] + Filtrar(resto, p);
        [tabela[0]] + (resto[..k - 1] + resto[k..]);
        { assert tabela[..k] == [tabela[0]] + resto[..k - 1]; assert tabela[k + 1..] == resto[k..]; }
        tabela[..k] + tabela[k + 1..];
      }
    }
  }

  /** Filtering out an id removes exactly that id from the table's ids. */
  lemma IdsSemId(tabela: seq<ReservaModel>, id: int)
    ensures Ids(Filtrar(tabela, OutroId(id))) == Ids(tabela) - {id}
  {
  }

  /**
   * With unique ids, cancelling removes exactly the record with this id:
   * every other record stays, in order, ids stay unique, and a later
   * lookup of the id returns null.
   */
  lemma RemoverSoOAlvo(tabela: seq<ReservaModel>, id: int)
    requires IdsUnicos(tabela)
    ensures var r := Remover(tabela, id);
      && IdsUnicos(r.tabela)
      && r.tabela == Filtrar(tabela, OutroId(id))
      && Ids(r.tabela) == Ids(tabela) - {id}
      && ProcurarPorId(r.tabela, id).None?
  {
    var r := Remover(tabela, id);
    match IndiceDe(tabela, id)
    case None =>
      assert forall x :: x in tabela ==> OutroId(id)(x);
      FiltrarTudo(tabela, OutroId(id));
    case Some(k) =>
      SemPosicao(tabela, k);
      SemPosicaoEFiltrar(tabela, k);
    IdsSemId(tabela, id);
  }

  /** The reservation table behind IReservaService; `reservas` is the DbSet. */
  class ReservaService {
    var reservas: seq<ReservaModel>

    /** The primary key of the table. */
    ghost predicate Valid()
      reads this
    {
      IdsUnicos(reservas)
    }

    /** Over the table the database already holds, whose primary key keeps ids unique. */
    constructor (tabela: seq<ReservaModel>)
      requires IdsUnicos(tabela)
      ensures Valid() && reservas == tabela
    {
      reservas := tabela;
    }

    /** Stamps DataCriacao with `agora`, adds the record under a database-chosen id and returns it. */
    method CriarReserva(reserva: ReservaModel, agora: DateTime) returns (criada: ReservaModel)
      requires Valid()
      modifies this
      ensures Valid()
      ensures criada.id !in Ids(old(reservas))
      ensures criada == Gravar(reserva, criada.id, agora)
      ensures reservas == old(reservas) + [criada]
    {
      var livre := IdLivre(reservas);
      var id :| id !in Ids(reservas);
      criada := reserva.(dataCriacao := agora);
      criada := criada.(id := id);
      GravarEncontra(reservas, reserva, id, agora);
      reservas := reservas + [criada];
    }

    /** Every record, in store order; an empty table gives an empty sequence. */
    function ObterTodasReservas(): (r: seq<ReservaModel>)
      reads this
      ensures r == reservas
    {
      reservas
    }

    /** The record with this id, or null. */
    function ObterReservaPorId(id: int): (r: Option<ReservaModel>)
      reads this
      ensures r.Some? ==> r.value in reservas && r.value.id == id
      ensures r.None? <==> id !in Ids(reservas)
    {
      ProcurarPorId(reservas, id)
    }

    /** The records of one table, whatever their date. */
    function ObterReservasPorMesa(numeroMesa: int): (r: seq<ReservaModel>)
      reads this
      ensures forall x :: x in r <==> x in reservas && x.numeroMesa == numeroMesa
    {
      Filtrar(reservas, NaMesa(numeroMesa))
    }

    /** The records whose DataReserva falls on the same Date as `data`. */
    function ObterReservasPorData(data: DateTime): (r: seq<ReservaModel>)
      reads this
      ensures forall x :: x in r <==> x in reservas && Data(x.dataReserva) == Data(data)
    {
      Filtrar(reservas, NaData(data))
    }

    /** Finds the record by id and overwrites its five mutable fields in place; null when absent. */
    method AtualizarReserva(reserva: ReservaModel) returns (r: Option<ReservaModel>)
      requires Valid()
      modifies this
      ensures Valid()
      ensures r == Atualizar(old(reservas), reserva).resultado
      ensures reservas == Atualizar(old(reservas), reserva).tabela
    {
      AtualizarSoOAlvo(reservas, reserva);
      var encontrada := IndiceDe(reservas, reserva.id);
      if encontrada.None? {
        return None;
      }
      var i := encontrada.value;
      var existente := reservas[i];
      existente := existente.(nomeCliente := reserva.nomeCliente);
      existente := existente.(dataReserva := reserva.dataReserva);
      existente := existente.(horarioReserva := reserva.horarioReserva);
      existente := existente.(numeroMesa := reserva.numeroMesa);
      existente := existente.(numeroPessoas := reserva.numeroPessoas);
      reservas := reservas[i := existente];
      r := Some(existente);
    }

    /** Removes the record with this id; false, and nothing changed, when there is none. */
    method CancelarReserva(id: int) returns (sucesso: bool)
      requires Valid()
      modifies this
      ensures Valid()
      ensures sucesso == Remover(old(reservas), id).removida
      ensures reservas == Remover(old(reservas), id).tabela
    {
      RemoverSoOAlvo(reservas, id);
      var encontrada := IndiceDe(reservas, id);
      if encontrada.None? {
        return false;
      }
      var i := encontrada.value;
      reservas := reservas[..i] + reservas[i + 1..];
      sucesso := true;
    }
  }
}
