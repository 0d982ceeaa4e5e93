/**
 * The reservation record (ReservaModel) and the constraints its data
 * annotations declare.
 *
 * .NET DateTime values are modelled by their tick count (100-nanosecond
 * units since 0001-01-01) and TimeSpan values by a signed tick count, so
 * that comparisons are exact integer arithmetic.
 */
module Models {

  /** The C# null reference, made explicit. */
  datatype Option<+T> = None | Some(value: T)

  /** A DateTime, as its tick count. */
  type DateTime = nat

  /** A TimeSpan, as a signed tick count. */
  type TimeSpan = int

  const TicksPorMinuto: nat := 600_000_000
  const TicksPorDia: nat := 1440 * TicksPorMinuto

  /** int.MaxValue, the upper bound of the [Range] annotations. */
  const Int32Max: int := 0x7FFF_FFFF

  /** The most characters [StringLength(100)] allows in NomeCliente. */
  const NomeMaxComprimento: nat := 100

  /** DateTime.Date: the same day at midnight. */
  function Data(t: DateTime): (d: DateTime)
    ensures d <= t < d + TicksPorDia
    ensures d % TicksPorDia == 0
  {
    t - t % TicksPorDia
  }

  /** Two instants have the same Date exactly when they fall on the same day number. */
  lemma MesmaData(a: DateTime, b: DateTime)
    ensures Data(a) == Data(b) <==> a / TicksPorDia == b / TicksPorDia
  {
  }

  /** Taking the date part twice changes nothing. */
  lemma DataIdempotente(t: DateTime)
    ensures Data(Data(t)) == Data(t)
  {
  }

  /** The reservation record; every property of the C# class is a field. */
  datatype ReservaModel = ReservaModel(
    id: int,                     // [Key], database identity column
    nomeCliente: Option<string>, // [Required], [StringLength(100)]
    dataReserva: DateTime,       // [Required], compared with == on create, by Date in filters
    horarioReserva: TimeSpan,    // [Required]
    numeroMesa: int,             // [Required], [Range(1, int.MaxValue)]
    numeroPessoas: int,          // [Required], [Range(1, int.MaxValue)]
    dataCriacao: DateTime)       // [Required], defaults to the construction time

  /** char.IsWhiteSpace: the Unicode separators and the control characters it treats as space. */
  predicate EspacoEmBranco(c: char)
  {
    || ('\t' <= c <= '\r')
    || c == ' ' || c == '\U{0085}' || c == '\U{00A0}' || c == '\U{1680}'
    || ('\U{2000}' <= c <= '\U{200A}')
    || c == '\U{2028}' || c == '\U{2029}' || c == '\U{202F}' || c == '\U{205F}' || c == '\U{3000}'
  }

  /** [Required] on a string: not null, and not empty or white space only. */
  predicate Preenchido(s: Option<string>): (ok: bool)
    ensures ok ==> s.Some? && |s.value| > 0
    ensures s.Some? && |s.value| > 0 && !EspacoEmBranco(s.value[0]) ==> ok
  {
    s.Some? && exists c :: c in s.value && !EspacoEmBranco(c)
  }

  /**
   * `string.Length`: the number of UTF-16 code units. A character above
   * U+FFFF takes two (a surrogate pair).
   */
  function ComprimentoUtf16(s: string): (n: nat)
    ensures |s| <= n <= 2 * |s|
    ensures (forall i :: 0 <= i < |s| ==> s[i] < '\U{10000}') ==> n == |s|
  {
    if s == [] then 0
    else (if s[0] < '\U{10000}' then 1 else 2) + ComprimentoUtf16(s[1..])
  }

  /** [StringLength(100)]: null passes, otherwise at most 100 UTF-16 code units. */
  predicate ComprimentoValido(s: Option<string>): (ok: bool)
    ensures ok && s.Some? ==> |s.value| <= NomeMaxComprimento
    ensures s.Some? && |s.value| <= NomeMaxComprimento / 2 ==> ok
  {
    s.None? || ComprimentoUtf16(s.value) <= NomeMaxComprimento
  }

  /** Sixty emoji are sixty characters but 120 code units, which [StringLength(100)] refuses. */
  lemma {:induction false} EmojisContamADobrar(n: nat)
    ensures ComprimentoUtf16(seq(n, _ => '\U{1F600}')) == 2 * n
    ensures n == 60 ==> !ComprimentoValido(Some(seq(n, _ => '\U{1F600}')))
  {
    if n > 0 {
      var s := seq(n, _ => '\U{1F600}');
      assert s[1..] == seq(n - 1, _ => '\U{1F600}');
      EmojisContamADobrar(n - 1);
    }
  }

  /**
   * Every data annotation of ReservaModel holds. [Required] on the DateTime,
   * TimeSpan and int properties always holds (a value type is never null),
   * so only the name and the two ranges can fail.
   */
  predicate AnotacoesValidas(r: ReservaModel): (ok: bool)
    ensures ok ==> r.nomeCliente.Some? && 0 < |r.nomeCliente.value| <= NomeMaxComprimento
    ensures ok ==> r.numeroMesa >= 1 && r.numeroPessoas >= 1
  {
    && Preenchido(r.nomeCliente)
    && ComprimentoValido(r.nomeCliente)
    && 1 <= r.numeroMesa <= Int32Max
    && 1 <= r.numeroPessoas <= Int32Max
  }

  /**
   * `new ReservaModel()`: every property at its C# default (0, null,
   * DateTime.MinValue) except DataCriacao, which the initializer sets to the
   * construction time `agora`. Such a record fails its own annotations.
   */
  function ReservaPorOmissao(agora: DateTime): (r: ReservaModel)
    ensures r.dataCriacao == agora
    ensures r.id == 0 && r.nomeCliente.None?
    ensures !AnotacoesValidas(r)
  {
    ReservaModel(0, None, 0, 0, 0, 0, agora)
  }

  /** A name made only of spaces fails [Required] though it is not null. */
  lemma NomeSoEspacosInvalido(n: nat)
    ensures !Preenchido(Some(seq(n, _ => ' ')))
  {
  }

  /** The [Range] annotations leave the table number unbounded up to int.MaxValue. */
  lemma MesaSemLimiteDeTrinta(r: ReservaModel)
    requires Preenchido(r.nomeCliente) && ComprimentoValido(r.nomeCliente)
    requires r.numeroMesa == 31 && r.numeroPessoas == 21
    ensures AnotacoesValidas(r)
  {
  }
}
