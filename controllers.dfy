/**
 * ReservasController: the guards and the 90-minute double-booking rule of
 * reservation creation, the date filter of the listing, and the mapping of
 * the store's answers to HTTP outcomes.
 */
module Controllers {
  import opened Models
  import opened Services

  /** Why a request was answered 400; each carries its own message in the source. */
  datatype ErroPedido = DadosInvalidos | MesaInvalida | PessoasInvalidas

  /** The body of a 200 answer: one record or a list. */
  datatype Conteudo = Registo(reserva: ReservaModel) | Lista(reservas: seq<ReservaModel>)

  /** The IActionResult of an endpoint, without status codes and message strings. */
  datatype Resposta =
    | BadRequest(erro: ErroPedido)
    | Conflict
    | Created(criada: ReservaModel)
    | Ok(conteudo: Conteudo)
    | NotFound
    | NoContent
    | ServerError

  /** Tables are numbered 1 to 30. */
  predicate MesaValida(numeroMesa: int)
  {
    1 <= numeroMesa <= 30
  }

  /** A table seats 1 to 20 people. */
  predicate PessoasValidas(numeroPessoas: int)
  {
    1 <= numeroPessoas <= 20
  }

  /** Two reservations on the same table must start at least this far apart: 90 minutes, in ticks. */
  const JanelaConflito: nat := 90 * TicksPorMinuto

  function Abs(x: int): nat
  {
    if x < 0 then -x else x
  }

  /**
   * The lambda passed to `Any`: the existing reservation has the very same
   * DataReserva (full DateTime equality, not only the date part) and its
   * HorarioReserva is strictly less than 90 minutes away.
   */
  predicate Conflita(existente: ReservaModel, pedido: ReservaModel): (c: bool)
    ensures c <==> existente.dataReserva == pedido.dataReserva
                   && pedido.horarioReserva - JanelaConflito < existente.horarioReserva < pedido.horarioReserva + JanelaConflito
  {
    existente.dataReserva == pedido.dataReserva
    && Abs(existente.horarioReserva - pedido.horarioReserva) < JanelaConflito
  }

  /** `reservasExistentes.Any(...)`: some existing reservation conflicts with the request. */
  function ExisteConflito(existentes: seq<ReservaModel>, pedido: ReservaModel): (b: bool)
    ensures b <==> exists r :: r in existentes && Conflita(r, pedido)
  {
    if existentes == [] then false
    else
      assert forall r :: r in existentes <==> r == existentes[0] || r in existentes[1..];
      Conflita(existentes[0], pedido) || ExisteConflito(existentes[1..], pedido)
  }

  /** The verdict is the same whichever of the two reservations is the new one. */
  lemma ConflitaSimetrico(a: ReservaModel, b: ReservaModel)
    ensures Conflita(a, b) <==> Conflita(b, a)
  {
  }

  /** Exactly 90 minutes apart is not a conflict; one tick less is. */
  lemma NoventaMinutosNaoConflita(a: ReservaModel, b: ReservaModel)
    requires a.dataReserva == b.dataReserva
    ensures Abs(a.horarioReserva - b.horarioReserva) == JanelaConflito ==> !Conflita(a, b)
    ensures Abs(a.horarioReserva - b.horarioReserva) == JanelaConflito - 1 ==> Conflita(a, b)
  {
  }

  /** Reservations whose DataReserva differ never conflict, however close their times. */
  lemma DatasDiferentesNaoConflitam(a: ReservaModel, b: ReservaModel)
    requires a.dataReserva != b.dataReserva
    ensures !Conflita(a, b)
  {
  }

  /**
   * Create compares DataReserva in full: two reservations on the same
   * calendar day whose DataReserva carry different times of day do not
   * conflict, even at the same HorarioReserva, though the date filters
   * put them on the same day.
   */
  lemma MesmoDiaNaoBasta(a: ReservaModel, b: ReservaModel)
    requires b == a.(dataReserva := Data(a.dataReserva) + 1) && a.dataReserva == Data(a.dataReserva)
    ensures Data(a.dataReserva) == Data(b.dataReserva)
    ensures !Conflita(a, b)
  {
  }

  /**
   * What create answers for a request against the table as it stands, when
   * it answers before the store creates anything; None when every guard
   * passes and the record is to be created.
   */
  function Recusa(reserva: Option<ReservaModel>, tabela: seq<ReservaModel>): (r: Option<Resposta>)
    ensures r.Some? ==> r.value.BadRequest? || r.value == Conflict
    ensures r.None? <==> && reserva.Some?
                         && MesaValida(reserva.value.numeroMesa) && PessoasValidas(reserva.value.numeroPessoas)
                         && forall x :: x in tabela && x.numeroMesa == reserva.value.numeroMesa ==> !Conflita(x, reserva.value)
  {
    if reserva.None? then Some(BadRequest(DadosInvalidos))
    else if !MesaValida(reserva.value.numeroMesa) then Some(BadRequest(MesaInvalida))
    else if !PessoasValidas(reserva.value.numeroPessoas) then Some(BadRequest(PessoasInvalidas))
    else if ExisteConflito(Filtrar(tabela, NaMesa(reserva.value.numeroMesa)), reserva.value) then Some(Conflict)
    else None
  }

  /** A null body is refused first, whatever the table holds. */
  lemma RecusaCorpoNulo(tabela: seq<ReservaModel>)
    ensures Recusa(None, tabela) == Some(BadRequest(DadosInvalidos))
  {
  }

  /** A table number outside 1..30 is refused, whatever the party size and the table hold. */
  lemma RecusaMesa(pedido: ReservaModel, tabela: seq<ReservaModel>)
    requires pedido.numeroMesa < 1 || pedido.numeroMesa > 30
    ensures Recusa(Some(pedido), tabela) == Some(BadRequest(MesaInvalida))
  {
  }

  /** A party size outside 1..20 is refused once the table number is valid, whatever the table holds. */
  lemma RecusaPessoas(pedido: ReservaModel, tabela: seq<ReservaModel>)
    requires MesaValida(pedido.numeroMesa)
    requires pedido.numeroPessoas < 1 || pedido.numeroPessoas > 20
    ensures Recusa(Some(pedido), tabela) == Some(BadRequest(PessoasInvalidas))
  {
  }

  /**
   * A valid request is refused with Conflict exactly when some stored
   * reservation on the same table has the same DataReserva and starts less
   * than 90 minutes away; otherwise it is accepted.
   */
  lemma RecusaConflito(pedido: ReservaModel, tabela: seq<ReservaModel>)
    requires MesaValida(pedido.numeroMesa) && PessoasValidas(pedido.numeroPessoas)
    ensures Recusa(Some(pedido), tabela) == Some(Conflict)
        <==> exists r :: r in tabela && r.numeroMesa == pedido.numeroMesa && Conflita(r, pedido)
    ensures Recusa(Some(pedido), tabela).None?
        <==> forall r :: r in tabela && r.numeroMesa == pedido.numeroMesa ==> !Conflita(r, pedido)
  {
  }

  /**
   * A request with a well-formed name that passes the table-number and
   * party-size guards satisfies every annotation of the record.
   */
  lemma GuardasDentroDasAnotacoes(pedido: ReservaModel)
    requires Preenchido(pedido.nomeCliente) && ComprimentoValido(pedido.nomeCliente)
    requires MesaValida(pedido.numeroMesa) && PessoasValidas(pedido.numeroPessoas)
    ensures AnotacoesValidas(pedido)
  {
  }

  /** A time of day, in TimeSpan ticks. */
  function Horas(h: nat, m: nat): TimeSpan
  {
    (h * 60 + m) * TicksPorMinuto
  }

  /**
   * Worked verdicts. With Maria's 18:30 reservation on table 5 for day `dia`:
   * 19:00 on the same table and day conflicts, table 35 is refused for its
   * number and 25 people for the party size (the three cases the controller
   * tests check); 20:00, exactly 90 minutes later, is accepted, and so is
   * 18:30 on the next day.
   */
  lemma ExemplosDeRecusa(dia: DateTime, maria: ReservaModel, joao: ReservaModel)
    requires dia % TicksPorDia == 0
    requires maria.numeroMesa == 5 && maria.dataReserva == dia && maria.horarioReserva == Horas(18, 30)
    requires joao.numeroMesa == 5 && joao.numeroPessoas == 4 && joao.dataReserva == dia && joao.horarioReserva == Horas(19, 0)
    ensures Recusa(Some(joao), [maria]) == Some(Conflict)
    ensures Recusa(Some(joao.(horarioReserva := Horas(20, 0))), [maria]).None?
    ensures Recusa(Some(joao.(dataReserva := dia + TicksPorDia, horarioReserva := Horas(18, 30))), [maria]).None?
    ensures Recusa(Some(joao.(numeroMesa := 35)), [maria]) == Some(BadRequest(MesaInvalida))
    ensures Recusa(Some(joao.(numeroPessoas := 25)), [maria]) == Some(BadRequest(PessoasInvalidas))
  {
  }

  /**
   * Update does not re-check the 90-minute rule: moving a reservation onto
   * another's table, DataReserva and time leaves two conflicting records on
   * one table.
   */
  lemma AtualizarPermiteConflito(a: ReservaModel, b: ReservaModel, pedido: ReservaModel)
    requires a.id != b.id && pedido.id == b.id
    requires pedido.numeroMesa == a.numeroMesa && pedido.dataReserva == a.dataReserva
    requires pedido.horarioReserva == a.horarioReserva
    ensures var t := Atualizar([a, b], pedido).tabela;
      t == [a, t[1]] && t[1].numeroMesa == a.numeroMesa && Conflita(a, t[1])
  {
  }

  /**
   * Update does not re-check the ranges either: whatever table number and
   * party size the request carries (table 35, say) are stored as they are.
   */
  lemma AtualizarAceitaForaDeIntervalo(tabela: seq<ReservaModel>, pedido: ReservaModel)
    requires IdsUnicos(tabela) && pedido.id in Ids(tabela)
    ensures var a := Atualizar(tabela, pedido);
      && a.resultado.Some?
      && a.resultado.value.numeroMesa == pedido.numeroMesa
      && a.resultado.value.numeroPessoas == pedido.numeroPessoas
      && ProcurarPorId(a.tabela, pedido.id) == a.resultado
  {
    AtualizarSoOAlvo(tabela, pedido);
  }

  /** The double-booking rule as a table invariant: no two reservations on one table conflict. */
  predicate SemConflitos(tabela: seq<ReservaModel>)
  {
    forall i, j :: 0 <= i < j < |tabela| && tabela[i].numeroMesa == tabela[j].numeroMesa ==> !Conflita(tabela[i], tabela[j])
  }

  /**
   * A reservation create accepts keeps a conflict-free table conflict-free;
   * with CriarReserva's contract this carries the invariant across every
   * create.
   */
  lemma CriarPreservaSemConflitos(tabela: seq<ReservaModel>, pedido: ReservaModel, id: int, agora: DateTime)
    requires SemConflitos(tabela) && Recusa(Some(pedido), tabela).None?
    ensures SemConflitos(tabela + [Gravar(pedido, id, agora)])
  {
  }

  /** Create answers Created with exactly the record the store returned, and ServerError when the store returns null. */
  function RespostaCriacao(novaReserva: Option<ReservaModel>): (r: Resposta)
    ensures r == ServerError <==> novaReserva.None?
    ensures novaReserva.Some? ==> r.Created? && r.criada == novaReserva.value
  {
    if novaReserva.Some? then Created(novaReserva.value) else ServerError
  }

  /** Get and update answer NotFound when the store returns null and Ok with its record otherwise. */
  function RespostaRegisto(reserva: Option<ReservaModel>): (r: Resposta)
    ensures r == NotFound <==> reserva.None?
    ensures reserva.Some? ==> r == Ok(Registo(reserva.value))
  {
    if reserva.None? then NotFound else Ok(Registo(reserva.value))
  }

  /**
   * What update answers before the store is called: the one BadRequest,
   * for a null body and for a body whose Id is not the route's id alike.
   */
  function RecusaAtualizacao(id: int, reserva: Option<ReservaModel>): (r: Option<Resposta>)
    ensures r.Some? ==> r.value == BadRequest(DadosInvalidos)
    ensures r.None? <==> reserva.Some? && reserva.value.id == id
  {
    if reserva.None? || reserva.value.id != id then Some(BadRequest(DadosInvalidos)) else None
  }

  /** Cancel answers NotFound when nothing was removed and NoContent when a record was. */
  function RespostaCancelamento(sucesso: bool): (r: Resposta)
    ensures r == NotFound <==> !sucesso
    ensures r == NoContent <==> sucesso
  {
    if !sucesso then NotFound else NoContent
  }

  /** An empty store lists as an empty sequence, with or without a date. */
  lemma ListagemVazia(c: ReservasController, data: Option<DateTime>)
    requires c.servico.reservas == []
    ensures c.ObterTodasReservas(data) == Ok(Lista([]))
  {
  }

  /** The endpoints, over the store they were given. */
  class ReservasController {
    const servico: ReservaService

    constructor (servico: ReservaService)
      ensures this.servico == servico
    {
      this.servico := servico;
    }

    /**
     * POST: the guards in order (null body, table number, party size), then
     * the double-booking rule over the table's existing reservations, then
     * the store's create.
     */
    method CriarReserva(reserva: Option<ReservaModel>, agora: DateTime) returns (resposta: Resposta)
      requires servico.Valid()
      modifies servico
      ensures servico.Valid()
      ensures Recusa(reserva, old(servico.reservas)).Some? ==>
        && resposta == Recusa(reserva, old(servico.reservas)).value
        && servico.reservas == old(servico.reservas)
      ensures Recusa(reserva, old(servico.reservas)).None? ==>
        && resposta.Created?
        && resposta.criada.id !in Ids(old(servico.reservas))
        && resposta.criada == Gravar(reserva.value, resposta.criada.id, agora)
        && servico.reservas == old(servico.reservas) + [resposta.criada]
    {
      if reserva.None? {
        return BadRequest(DadosInvalidos);
      }
      var pedido := reserva.value;
      if pedido.numeroMesa < 1 || pedido.numeroMesa > 30 {
        return BadRequest(MesaInvalida);
      }
      if pedido.numeroPessoas < 1 || pedido.numeroPessoas > 20 {
        return BadRequest(PessoasInvalidas);
      }
      var reservasExistentes := servico.ObterReservasPorMesa(pedido.numeroMesa);
      if ExisteConflito(reservasExistentes, pedido) {
        return Conflict;
      }
      var novaReserva := servico.CriarReserva(pedido, agora);
      resposta := RespostaCriacao(Some(novaReserva));
    }

    /** GET: every record, or with a date only those whose DataReserva falls on that date, in store order. */
    function ObterTodasReservas(data: Option<DateTime>): (r: Resposta)
      reads servico
      ensures r.Ok? && r.conteudo.Lista?
      ensures data.None? ==> r.conteudo.reservas == servico.reservas
      ensures data.Some? ==> forall x :: x in r.conteudo.reservas
                               <==> x in servico.reservas && Data(x.dataReserva) == Data(data.value)
      ensures data.Some? ==> r.conteudo.reservas == Filtrar(servico.reservas, NaData(data.value))
    {
      var todas := servico.ObterTodasReservas();
      if data.Some? then
        Ok(Lista(Filtrar(todas, NaData(data.value))))
      else
        Ok(Lista(todas))
    }

    /** GET by id: the record, or NotFound. */
    function ObterReservaPorId(id: int): (r: Resposta)
      reads servico
      ensures r == NotFound <==> id !in Ids(servico.reservas)
      ensures r.Ok? ==> r.conteudo.Registo? && r.conteudo.reserva in servico.reservas && r.conteudo.reserva.id == id
      ensures id in Ids(servico.reservas) ==>
        r.Ok? && r.conteudo.Registo? && Some(r.conteudo.reserva) == ProcurarPorId(servico.reservas, id)
    {
      RespostaRegisto(servico.ObterReservaPorId(id))
    }

    /** PUT: refuse a null or mismatched body, then update and map null to NotFound. */
    method AtualizarReserva(id: int, reserva: Option<ReservaModel>) returns (resposta: Resposta)
      requires servico.Valid()
      modifies servico
      ensures servico.Valid()
      ensures RecusaAtualizacao(id, reserva).Some? ==>
        resposta == RecusaAtualizacao(id, reserva).value && servico.reservas == old(servico.reservas)
      ensures RecusaAtualizacao(id, reserva).None? ==>
        && servico.reservas == Atualizar(old(servico.reservas), reserva.value).tabela
        && resposta == RespostaRegisto(Atualizar(old(servico.reservas), reserva.value).resultado)
    {
      if reserva.None? || reserva.value.id != id {
        return BadRequest(DadosInvalidos);
      }
      var reservaAtualizada := servico.AtualizarReserva(reserva.value);
      resposta := RespostaRegisto(reservaAtualizada);
    }

    /** DELETE: NoContent when a record was removed, NotFound otherwise. */
    method CancelarReserva(id: int) returns (resposta: Resposta)
      requires servico.Valid()
      modifies servico
      ensures servico.Valid()
      ensures resposta == RespostaCancelamento(id in Ids(old(servico.reservas)))
      ensures servico.reservas == Remover(old(servico.reservas), id).tabela
    {
      var sucesso := servico.CancelarReserva(id);
      resposta := RespostaCancelamento(sucesso);
    }

    /** GET by date: the store's date query, always Ok. */
    function ObterReservasPorData(data: DateTime): (r: Resposta)
      reads servico
      ensures r == ObterTodasReservas(Some(data))
    {
      Ok(Lista(servico.ObterReservasPorData(data)))
    }
  }

  /**
   * An example run through the controller, from an empty table: with
   * Maria's 18:30 reservation on table 5 stored, João's at 19:00 on the same
   * table and day is refused as a conflict.
   */
  method CenarioConflito(dia: DateTime, agora: DateTime)
    requires dia % TicksPorDia == 0
  {
    var servico := new ReservaService([]);
    var controlador := new ReservasController(servico);
    var maria := ReservaModel(0, Some("Maria Silva"), dia, Horas(18, 30), 5, 2, 0);
    var r1 := controlador.CriarReserva(Some(maria), agora);
    assert r1.Created? && servico.reservas == [r1.criada];
    var joao := ReservaModel(0, Some("João Silva"), dia, Horas(19, 0), 5, 4, 0);
    assert Conflita(r1.criada, joao);
    var r2 := controlador.CriarReserva(Some(joao), agora);
    assert r2 == Conflict && servico.reservas == [r1.criada];
  }

  /**
   * The same start, with João asking for 20:00, exactly 90 minutes after
   * Maria: his reservation is created beside hers.
   */
  method CenarioNoventaMinutos(dia: DateTime, agora: DateTime)
    requires dia % TicksPorDia == 0
  {
    var servico := new ReservaService([]);
    var controlador := new ReservasController(servico);
    var maria := ReservaModel(0, Some("Maria Silva"), dia, Horas(18, 30), 5, 2, 0);
    var r1 := controlador.CriarReserva(Some(maria), agora);
    assert r1.Created? && servico.reservas == [r1.criada];
    var joao := ReservaModel(0, Some("João Silva"), dia, Horas(20, 0), 5, 4, 0);
    assert !Conflita(r1.criada, joao);
    var r2 := controlador.CriarReserva(Some(joao), agora);
    assert r2.Created? && servico.reservas == [r1.criada, r2.criada];
  }

  /**
   * A second example run, from an empty table: Maria's reservation is
   * created, an update with a mismatched id is refused, and after
   * cancelling it she is not found.
   */
  method CenarioAtualizarCancelar(dia: DateTime, agora: DateTime)
    requires dia % TicksPorDia == 0
  {
    var servico := new ReservaService([]);
    var controlador := new ReservasController(servico);
    var maria := ReservaModel(0, Some("Maria Silva"), dia, Horas(18, 30), 5, 2, 0);
    var r1 := controlador.CriarReserva(Some(maria), agora);
    assert r1.Created? && servico.reservas == [r1.criada];
    var idMaria := r1.criada.id;
    var r4 := controlador.AtualizarReserva(idMaria + 1, Some(r1.criada));
    assert r4 == BadRequest(DadosInvalidos);
    var r5 := controlador.CancelarReserva(idMaria);
    assert idMaria in Ids([r1.criada]);
    assert r5 == NoContent;
    RemoverSoOAlvo([r1.criada], idMaria);
    assert controlador.ObterReservaPorId(idMaria) == NotFound;
  }

}
