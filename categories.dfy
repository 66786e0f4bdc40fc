/** The seeded reference data: the category catalogue grouped by transaction type, the
    loop that turns it into category upsert arguments, and the keying rule by which the
    seeding upserts categories (by name) and subcategories (by category and name). */
module Categories {
  import opened Ledger
  import opened Store
  import opened Rates
  import opened LedgerSums
  import TransferActions
  import WalletActions

  /** One catalogue category: its name and its subcategory names, in table order. */
  datatype CategorySeed = CategorySeed(name: string, subcategories: seq<string>)

  /** The categories listed under one transaction type. */
  datatype TypeGroup = TypeGroup(txType: TxType, categories: seq<CategorySeed>)

  // Income categories
  const BeneficiosGubernamentales: CategorySeed := CategorySeed("Beneficios Gubernamentales", [
    "Asistencia social", "Beneficios por incapacidad", "Compensacion por desempleo"])
  const EmpleoPrimario: CategorySeed := CategorySeed("Empleo Primario", [
    "Bonos y Comisiones", "Propinas y gratificaciones", "Salario"])
  const IngresosDeAlquiler: CategorySeed := CategorySeed("Ingresos de alquiler", [
    "Alquiler de inmuebles", "Arrendamiento de equipo o vehiculo"])
  const IngresosDeInversion: CategorySeed := CategorySeed("Ingresos de Inversion", [
    "Dividendos", "Ganancias de capital", "Intereses"])
  const IngresoDeJubilacion: CategorySeed := CategorySeed("Ingreso de jubilacion", [
    "Pensiones", "Seguro social"])
  const IngresosDiversos: CategorySeed := CategorySeed("Ingresos Diversos", [
    "Ganancias de loteria o apuestas", "Ventas de articulos personales"])
  const OtrosIngresos: CategorySeed := CategorySeed("Otros ingresos", [
    "Becas y subvenciones", "Herencia", "Obsequios",
    "Pension alimenticia o manutencion infantil"])
  const Reembolsos: CategorySeed := CategorySeed("Reembolsos", [
    "Reembolsos de gastos", "Reembolsos de seguro"])
  const TrabajoIndependiente: CategorySeed := CategorySeed("Trabajo Independiente", [
    "Ingresos comerciales", "Trabajo por contrato"])

  const IncomeCategories: seq<CategorySeed> := [
    BeneficiosGubernamentales, EmpleoPrimario, IngresosDeAlquiler, IngresosDeInversion,
    IngresoDeJubilacion, IngresosDiversos, OtrosIngresos, Reembolsos, TrabajoIndependiente]

  // Expense categories
  const AhorrosEInversiones: CategorySeed := CategorySeed("Ahorros e inversiones", [
    "Acciones y bonos", "Ahorros para educacion", "Depositos de cuentas de ahorro",
    "Dispositivos y Articulos Crypto", "Divisas Crypto", "Fondo de emergencia",
    "Fondo de Jubilacion"])
  const Alimentos: CategorySeed := CategorySeed("Alimentos", [
    "Alcohol y bebidas", "Comida para llevar y domicilios", "Mercado de alimentos",
    "Otros Alimentos", "Salidas a Comer"])
  const Alojamiento: CategorySeed := CategorySeed("Alojamiento", [
    "Alquiler de inmueble", "Hipoteca", "Impuestos de Hogar o Renta",
    "Mantenimiento y Reparaciones", "Mejoras para el hogar", "Muebles y Electrodomesticos"])
  const ArticulosDeUsoDomestico: CategorySeed := CategorySeed("Articulos de uso domestico", [
    "Articulos de cocina", "Articulos de papel", "Herramientas de mantenimiento del hogar",
    "Productos de limpieza"])
  const CuidadoDeLaSalud: CategorySeed := CategorySeed("Cuidado de la salud", [
    "Articulos de uso intimo", "Contribuciones a cuenta de ahorros para salud",
    "Cuidado de la vision", "Cuidado dental", "Cuidado de la piel", "Medicina sin receta",
    "Primas de seguros medicos", "Recetas y Medicamentos", "Visitas al medico"])
  const CuidadoDeNinos: CategorySeed := CategorySeed("Cuidado de niños", [
    "Guarderia y niñera", "Manutencion de los hijos"])
  const CuidadoDeMascotas: CategorySeed := CategorySeed("Cuidado de mascotas", [
    "Aseo de mascotas", "Atencion veterinaria", "Comida y suministros", "Entrenamiento",
    "Guarderia y Hospedaje", "Juguetes y Entretenimiento", "Licencias para mascotas",
    "Otros Gastos de mascotas", "Seguro para mascotas"])
  const DeportesYFitness: CategorySeed := CategorySeed("Deportes y Fitness", [
    "Clases de fitness",
    "Entrenamiento personal (costos asociados a la contratacion de un entrenador personal)",
    "Equipamiento del hogar", "Equipamiento deportivo", "Membresia de Gimnasio",
    "Ropa y Calzado", "Suplementos nutricionales", "Tarifas de equipos deportivos",
    "Tarifas de inscripcion a eventos"])
  const Educacion: CategorySeed := CategorySeed("Educacion", [
    "Cuotas de organizacion estudiantil", "Diplomados y Cursos", "Educacion continua",
    "Fotocopias y Articulos Impresos", "Libros y materiales", "Matricula y cuotas",
    "Suministros escolares"])
  const Entretenimiento: CategorySeed := CategorySeed("Entretenimiento", [
    "Cine y Teatro", "Conciertos y Eventos en vivo", "Eventos sociales", "Juegos y juguetes",
    "Pasatiempos y manualidades", "Subscripciones (servicios de streaming, revistas)"])
  const GastosDeTrabajo: CategorySeed := CategorySeed("Gastos de Trabajo", [
    "Contribuciones a Salud y Pension", "Educacion y Entrenamiento",
    "Equipos de salud y seguridad", "Gastos de comunicacion", "Gastos de viaje",
    "Gastos vehiculares", "Herramientas profesionales y equipos", "Impuesto sobre la renta",
    "Licencias y permisos", "Mantenimiento y reparaciones de equipo de trabajo",
    "Muebleria relacionada al trabajo", "Publicidad y Mercadeo",
    "Renta de oficina y gastos relacionados", "Seguro de negocio",
    "Servicios Legales y Profesionales", "Subscripciones y membresias", "Suministros y equipos",
    "Technologia y Electronicos", "Utilidades para el trabajo"])
  const GastosFinancieros: CategorySeed := CategorySeed("Gastos Financieros", [
    "Cambio de divisas", "Comisiones bancarias", "Cuotas de Manejo",
    "Franqueo y envio (remesas)", "Transferencias Internas"])
  const Miscelaneos: CategorySeed := CategorySeed("Miscelaneos", [
    "Compras Unicas", "Gastos imprevistos", "Gastos Impulsivos", "Otros Gastos",
    "Retiros en Efectivo"])
  const PagosDeDeuda: CategorySeed := CategorySeed("Pagos de deuda", [
    "Otros Prestamos", "Pagos de tarjeta de credito", "Prestamos estudiantiles",
    "Prestamos personales"])
  const RegalosYDonaciones: CategorySeed := CategorySeed("Regalos y Donaciones", [
    "Bodas y ocaciones especiales", "Donaciones de caridad",
    "Regalos de cumpleaños y dias festivos", "Soporte Financiero"])
  const RopaYCuidadoPersonal: CategorySeed := CategorySeed("Ropa y cuidado personal", [
    "Articulos de aseo personal", "Cortes de pelo y aseo", "Cosmeticos y articulos de belleza",
    "Cuidado de la piel", "Lavanderia y tintoreria", "Ropas y zapatos"])
  const Seguros: CategorySeed := CategorySeed("Seguros", [
    "Otros seguros", "Seguro de auto", "Seguro de hogar", "Seguro de incapacidad",
    "Seguro de salud", "Seguro de vida"])
  const ServiciosProfesionales: CategorySeed := CategorySeed("Servicios Profesionales", [
    "Honorarios Legales", "Preparacion de contabilidad y impuestos", "Servicios de consultoria"])
  const TecnologiaYServiciosDigitales: CategorySeed := CategorySeed("Tecnologia y Servicios Digitales", [
    "Alojamiento web y dominios", "Compras de aplicaciones",
    "Hardware y dispositivos (telefonos, computadoras)",
    "Suscripcion de software (almacenamiento en la nuve, administrador de contraseñas)"])
  const Transporte: CategorySeed := CategorySeed("Transporte", [
    "Cumbustible", "Mantenimiento y reparacion de vehiculo", "Pago de coche",
    "Registro y licencia", "Tarifas de estacionamiento", "Taxis y viajes compartidos",
    "Transporte publico"])
  const Utilidades: CategorySeed := CategorySeed("Utilidades", [
    "Agua y Alcantarillado", "Electricidad", "Eliminacion de Residuos", "Gas", "Internet",
    "Telefonia Fija", "Telefonia Movil", "Television"])
  const Viajes: CategorySeed := CategorySeed("Viajes", [
    "Alojamientos", "Alquiler de coches", "Excursiones y Actividades", "Gastos de vacaciones",
    "Pasaje aereo", "Pasaje flota", "Seguro de viaje", "Souvenires"])

  const ExpenseCategories: seq<CategorySeed> := [
    AhorrosEInversiones, Alimentos, Alojamiento, ArticulosDeUsoDomestico, CuidadoDeLaSalud,
    CuidadoDeNinos, CuidadoDeMascotas, DeportesYFitness, Educacion, Entretenimiento,
    GastosDeTrabajo, GastosFinancieros, Miscelaneos, PagosDeDeuda, RegalosYDonaciones,
    RopaYCuidadoPersonal, Seguros, ServiciosProfesionales, TecnologiaYServiciosDigitales,
    Transporte, Utilidades, Viajes]

  // Adjustment categories
  const Ajustes: CategorySeed := CategorySeed("Ajustes", [
    "Ajuste de Billetera", "Balance Inicial"])

  const AdjustmentCategories: seq<CategorySeed> := [
    Ajustes]
  /** `CATEGORIES`: the three groups, in table order. */
  const Catalog: seq<TypeGroup> := [
    TypeGroup(Income, IncomeCategories),
    TypeGroup(Expense, ExpenseCategories),
    TypeGroup(Adjustment, AdjustmentCategories)]

  /** A category together with the type of the group that lists it. */
  datatype Entry = Entry(txType: TxType, category: CategorySeed)

  /** The categories of one group, each tagged with the group's type. */
  function GroupEntries(g: TypeGroup): seq<Entry> {
    seq(|g.categories|, k requires 0 <= k < |g.categories| => Entry(g.txType, g.categories[k]))
  }

  /** Every category of `groups` in table order: group by group, and within a group in
      the order listed. */
  function Entries(groups: seq<TypeGroup>): seq<Entry> {
    if groups == [] then []
    else Entries(groups[..|groups| - 1]) + GroupEntries(groups[|groups| - 1])
  }

  /** The entries are exactly the categories of the groups, each with its group's type. */
  lemma {:induction false} EntriesOfGroups(groups: seq<TypeGroup>, e: Entry)
    ensures e in Entries(groups) <==> exists g | g in groups :: g.txType == e.txType && e.category in g.categories
  {
    if groups != [] {
      var init, last := groups[..|groups| - 1], groups[|groups| - 1];
      assert groups == init + [last];
      EntriesOfGroups(init, e);
      assert e in GroupEntries(last) <==> last.txType == e.txType && e.category in last.categories by {
        if e.category in last.categories {
          var k :| 0 <= k < |last.categories| && last.categories[k] == e.category;
          assert GroupEntries(last)[k] == Entry(last.txType, e.category);
        }
      }
    }
  }

  /** `CATEGORIES.length` summed over the groups: 9 income, 22 expense and 1 adjustment
      category. */
  lemma CatalogSize()
    ensures |Entries(Catalog)| == 32
  {
    assert |IncomeCategories| == 9 && |ExpenseCategories| == 22 && |AdjustmentCategories| == 1;
    assert Catalog[..1][..0] == [];
    assert |Entries(Catalog[..1])| == 9;
    assert Catalog[..2][..1] == Catalog[..1];
    assert |Entries(Catalog[..2])| == 31;
    assert Catalog[..3] == Catalog && Catalog[..3][..2] == Catalog[..2];
  }

  /** A `{name}` record of a `createMany` data list. */
  datatype SubcategoryData = SubcategoryData(name: string)

  /** One `Prisma.CategoriesUpsertArgs`: look the category up by name; create it with
      the group's type, its name and its subcategories; or update its name. The update's
      empty `subcategories: {}` writes nothing and has no field here. */
  datatype UpsertArgs = UpsertArgs(
    whereName: string,
    createType: TxType,
    createName: string,
    createSubcategories: seq<SubcategoryData>,
    updateName: string)

  /** `arg` is keyed by the category's name, creates it under its group's type with its
      subcategory names in order, and updates only its name. */
  predicate Describes(arg: UpsertArgs, e: Entry) {
    && arg.whereName == e.category.name
    && arg.createType == e.txType
    && arg.createName == e.category.name
    && |arg.createSubcategories| == |e.category.subcategories|
    && (forall k | 0 <= k < |arg.createSubcategories| :: arg.createSubcategories[k].name == e.category.subcategories[k])
    && arg.updateName == e.category.name
  }

  /** The builder loop: one upsert argument per category, in table order. */
  method BuildUpsertArgs(groups: seq<TypeGroup>) returns (categories: seq<UpsertArgs>)
    ensures |categories| == |Entries(groups)|
    ensures forall k | 0 <= k < |categories| :: Describes(categories[k], Entries(groups)[k])
  {
    categories := [];
    for i := 0 to |groups|
      invariant |categories| == |Entries(groups[..i])|
      invariant forall k | 0 <= k < |categories| :: Describes(categories[k], Entries(groups[..i])[k])
    {
      var transactionType := groups[i];
      ghost var done := Entries(groups[..i]);
      for j := 0 to |transactionType.categories|
        invariant |categories| == |done| + j
        invariant forall k | 0 <= k < |done| :: Describes(categories[k], done[k])
        invariant forall k | |done| <= k < |categories| ::
          Describes(categories[k], Entry(transactionType.txType, transactionType.categories[k - |done|]))
      {
        var category := transactionType.categories[j];
        var subcategories: seq<SubcategoryData> := [];
        for m := 0 to |category.subcategories|
          invariant |subcategories| == m
          invariant forall k | 0 <= k < m :: subcategories[k].name == category.subcategories[k]
        {
          subcategories := subcategories + [SubcategoryData(category.subcategories[m])];
        }
        categories := categories + [UpsertArgs(category.name, transactionType.txType, category.name, subcategories, category.name)];
      }
      assert groups[..i + 1][..i] == groups[..i];
      assert Entries(groups[..i + 1]) == done + GroupEntries(transactionType);
    }
    assert groups[..|groups|] == groups;
  }

  /** The reference tables while seeding: category rows and subcategory rows in insertion
      order, and the next fresh identifier. */
  datatype SeedState = SeedState(categories: seq<Category>, subcategories: seq<Subcategory>, nextId: Id)

  /** `categories.upsert({where: {name}})` finds the category row of that name. */
  function FindCategoryByName(cats: seq<Category>, name: string): (r: Option<Category>)
    ensures r.None? <==> forall c | c in cats :: c.name != name
    ensures r.Some? ==> r.value in cats && r.value.name == name
  {
    if cats == [] then None
    else if cats[0].name == name then Some(cats[0])
    else FindCategoryByName(cats[1..], name)
  }

  /** `subcategories.upsert({where: {categoryId_name}})` finds a row with that key. */
  predicate HasKey(subs: seq<Subcategory>, categoryId: Id, name: string) {
    exists sub | sub in subs :: sub.categoryId == categoryId && sub.name == name
  }

  /** Upsert of a category keyed by name: an existing row only has its name rewritten to
      the same value; otherwise a row of type `t` is created. Returns the row's id. */
  function UpsertCategory(s: SeedState, t: TxType, name: string): (r: (SeedState, Id))
    ensures r.0.subcategories == s.subcategories && s.categories <= r.0.categories
    ensures forall c | c in s.categories :: c in r.0.categories
    ensures exists c | c in r.0.categories :: c.id == r.1 && c.name == name
    ensures FindCategoryByName(s.categories, name).Some? ==> r.0 == s
    ensures FindCategoryByName(s.categories, name).None? ==>
      r.0.categories == s.categories + [Category(s.nextId, t, name)] && r.1 == s.nextId && r.0.nextId == s.nextId + 1
  {
    match FindCategoryByName(s.categories, name)
    case Some(c) => (s, c.id)
    case None => (s.(categories := s.categories + [Category(s.nextId, t, name)], nextId := s.nextId + 1), s.nextId)
  }

  /** Upsert of a subcategory keyed by (category, name): an existing row only has its
      name rewritten to the same value; otherwise a row is created under `categoryId`. */
  function UpsertSubcategory(s: SeedState, categoryId: Id, name: string): (r: SeedState)
    ensures r.categories == s.categories && s.subcategories <= r.subcategories
    ensures forall sub | sub in s.subcategories :: sub in r.subcategories
    ensures HasKey(r.subcategories, categoryId, name)
    ensures HasKey(s.subcategories, categoryId, name) ==> r == s
    ensures !HasKey(s.subcategories, categoryId, name) ==>
      r.subcategories == s.subcategories + [Subcategory(s.nextId, categoryId, name)] && r.nextId == s.nextId + 1
  {
    if HasKey(s.subcategories, categoryId, name) then s
    else
      var row := Subcategory(s.nextId, categoryId, name);
      assert row in s.subcategories + [row];
      s.(subcategories := s.subcategories + [row], nextId := s.nextId + 1)
  }

  /** The inner loop of the seeding: the category's subcategory names upserted in order. */
  function SeedSubcategories(s: SeedState, categoryId: Id, names: seq<string>): (r: SeedState)
    ensures r.categories == s.categories && s.subcategories <= r.subcategories
    // every name has a row under the category afterwards
    ensures forall n | n in names :: HasKey(r.subcategories, categoryId, n)
    // the rows added hang under the category, carry listed names and take one fresh id each
    ensures forall k | |s.subcategories| <= k < |r.subcategories| ::
      r.subcategories[k].categoryId == categoryId && r.subcategories[k].name in names
    ensures r.nextId == s.nextId + (|r.subcategories| - |s.subcategories|)
  {
    if names == [] then s
    else
      var init := names[..|names| - 1];
      var before := SeedSubcategories(s, categoryId, init);
      var r := UpsertSubcategory(before, categoryId, names[|names| - 1]);
      assert forall n | n in init :: n in names;
      assert forall n | n in init :: HasKey(r.subcategories, categoryId, n) by {
        forall n | n in init ensures HasKey(r.subcategories, categoryId, n) {
          var sub :| sub in before.subcategories && sub.categoryId == categoryId && sub.name == n;
          assert sub in r.subcategories;
        }
      }
      r
  }

  /** One iteration of the seeding's category loop. */
  function SeedEntry(s: SeedState, e: Entry): (r: SeedState)
    ensures s.categories <= r.categories && s.subcategories <= r.subcategories
    ensures |r.categories| <= |s.categories| + 1
    // afterwards a category row of the entry's name holds a row per listed subcategory
    ensures exists c | c in r.categories ::
      && c.name == e.category.name
      && forall n | n in e.category.subcategories :: HasKey(r.subcategories, c.id, n)
    ensures r.nextId == s.nextId + (|r.categories| - |s.categories|) + (|r.subcategories| - |s.subcategories|)
  {
    var (s', categoryId) := UpsertCategory(s, e.txType, e.category.name);
    var c :| c in s'.categories && c.id == categoryId && c.name == e.category.name;
    var r := SeedSubcategories(s', categoryId, e.category.subcategories);
    assert c in r.categories;
    r
  }

  /** The seeding of the given categories, in order, into empty tables. */
  function SeedEntries(es: seq<Entry>): (r: SeedState)
    // at most one category row per entry, and one identifier per row
    ensures |r.categories| <= |es|
    ensures r.nextId == |r.categories| + |r.subcategories|
  {
    if es == [] then SeedState([], [], 0)
    else SeedEntry(SeedEntries(es[..|es| - 1]), es[|es| - 1])
  }

  /** The reference tables `seedCategories` leaves behind when run on empty tables. */
  function Seeded(groups: seq<TypeGroup>): SeedState {
    SeedEntries(Entries(groups))
  }

  /** Category identifiers are distinct and below the next fresh identifier. */
  predicate CategoryIdsFresh(s: SeedState) {
    && (forall c | c in s.categories :: c.id < s.nextId)
    && (forall i, j | 0 <= i < j < |s.categories| :: s.categories[i].id != s.categories[j].id)
  }

  /** No two category rows share a name: the key of the category upsert. */
  predicate CategoryNamesUnique(cats: seq<Category>) {
    forall i, j | 0 <= i < j < |cats| :: cats[i].name != cats[j].name
  }

  /** No two subcategory rows share a (category, name) key. */
  predicate SubcategoryKeysUnique(subs: seq<Subcategory>) {
    forall i, j | 0 <= i < j < |subs| :: subs[i].categoryId != subs[j].categoryId || subs[i].name != subs[j].name
  }

  /** Every row comes from a catalogue entry: a category row has the name and the type of
      some entry, and a subcategory row hangs under a category row named like an entry
      that lists the subcategory's name. */
  predicate RowsFromEntries(s: SeedState, es: seq<Entry>) {
    && (forall c | c in s.categories :: exists e | e in es :: e.category.name == c.name && e.txType == c.txType)
    && (forall sub | sub in s.subcategories ::
          exists c | c in s.categories :: c.id == sub.categoryId && Lists(es, c.name, sub.name))
  }

  /** Some entry of `es` is a category named `category` listing subcategory `name`. */
  predicate Lists(es: seq<Entry>, category: string, name: string) {
    exists e | e in es :: e.category.name == category && name in e.category.subcategories
  }

  /** Each of `names` has a row under the category row named like entry `e`. */
  predicate Covers(s: SeedState, e: Entry, names: seq<string>) {
    forall n | n in names :: exists c | c in s.categories :: c.name == e.category.name && HasKey(s.subcategories, c.id, n)
  }

  /** What seeding the entries `es` establishes. */
  predicate SeedInv(s: SeedState, es: seq<Entry>) {
    && CategoryIdsFresh(s)
    && CategoryNamesUnique(s.categories)
    && SubcategoryKeysUnique(s.subcategories)
    && RowsFromEntries(s, es)
    && (forall e | e in es :: Covers(s, e, e.category.subcategories))
  }

  /** `SeedInv` in the middle of entry `e`: its category row `categoryId` exists and the
      names `done` already have rows under it. */
  predicate SeedingEntry(s: SeedState, es: seq<Entry>, e: Entry, categoryId: Id, done: seq<string>) {
    && CategoryIdsFresh(s)
    && CategoryNamesUnique(s.categories)
    && SubcategoryKeysUnique(s.subcategories)
    && RowsFromEntries(s, es + [e])
    && (forall e' | e' in es :: Covers(s, e', e'.category.subcategories))
    && (exists c | c in s.categories :: c.id == categoryId && c.name == e.category.name)
    && (forall n | n in done :: HasKey(s.subcategories, categoryId, n))
  }

  /** Rows that come from entries of `es` come from entries of `es + [e]`. */
  lemma RowsFromMoreEntries(s: SeedState, es: seq<Entry>, e: Entry)
    requires RowsFromEntries(s, es)
    ensures RowsFromEntries(s, es + [e])
  {
    forall e' | e' in es ensures e' in es + [e] { }
    forall sub | sub in s.subcategories
      ensures exists c | c in s.categories :: c.id == sub.categoryId && Lists(es + [e], c.name, sub.name)
    {
      var c :| c in s.categories && c.id == sub.categoryId && Lists(es, c.name, sub.name);
      var e' :| e' in es && e'.category.name == c.name && sub.name in e'.category.subcategories;
      assert e' in es + [e];
    }
  }

  /** Coverage survives adding rows. */
  lemma CoversMoreRows(s: SeedState, s': SeedState, es: seq<Entry>)
    requires forall e | e in es :: Covers(s, e, e.category.subcategories)
    requires forall c | c in s.categories :: c in s'.categories
    requires forall sub | sub in s.subcategories :: sub in s'.subcategories
    ensures forall e | e in es :: Covers(s', e, e.category.subcategories)
  {
    forall e | e in es ensures Covers(s', e, e.category.subcategories) {
      forall n | n in e.category.subcategories
        ensures exists c | c in s'.categories :: c.name == e.category.name && HasKey(s'.subcategories, c.id, n)
      {
        var c :| c in s.categories && c.name == e.category.name && HasKey(s.subcategories, c.id, n);
        var sub :| sub in s.subcategories && sub.categoryId == c.id && sub.name == n;
        assert c in s'.categories && sub in s'.subcategories;
      }
    }
  }

  /** A category row created for entry `e` keeps what seeding `es` established. */
  lemma NewCategoryStep(s: SeedState, es: seq<Entry>, e: Entry)
    requires SeedInv(s, es) && FindCategoryByName(s.categories, e.category.name).None?
    ensures var (s', categoryId) := UpsertCategory(s, e.txType, e.category.name);
      SeedingEntry(s', es, e, categoryId, [])
  {
    var (s', categoryId) := UpsertCategory(s, e.txType, e.category.name);
    var row := Category(s.nextId, e.txType, e.category.name);
    assert s'.categories[|s.categories|] == row;
    assert e in es + [e];
    NewCategoryKeys(s, e.txType, e.category.name);
    RowsFromMoreEntries(s, es, e);
    forall c | c in s'.categories
      ensures exists e' | e' in es + [e] :: e'.category.name == c.name && e'.txType == c.txType
    {
      if c != row {
        assert c in s.categories;
      }
    }
    forall sub | sub in s'.subcategories
      ensures exists c | c in s'.categories :: c.id == sub.categoryId && Lists(es + [e], c.name, sub.name)
    {
      var c :| c in s.categories && c.id == sub.categoryId && Lists(es + [e], c.name, sub.name);
      assert c in s'.categories;
    }
    CoversMoreRows(s, s', es);
  }

  /** A category row created under a fresh name and identifier keeps both keys distinct. */
  lemma NewCategoryKeys(s: SeedState, t: TxType, name: string)
    requires CategoryIdsFresh(s) && CategoryNamesUnique(s.categories)
    requires FindCategoryByName(s.categories, name).None?
    ensures CategoryIdsFresh(UpsertCategory(s, t, name).0)
    ensures CategoryNamesUnique(UpsertCategory(s, t, name).0.categories)
  {
    var cats := UpsertCategory(s, t, name).0.categories;
    assert forall i | 0 <= i < |s.categories| :: cats[i] == s.categories[i] && cats[i] in s.categories;
  }

  lemma UpsertCategoryStep(s: SeedState, es: seq<Entry>, e: Entry)
    requires SeedInv(s, es)
    ensures var (s', categoryId) := UpsertCategory(s, e.txType, e.category.name);
      SeedingEntry(s', es, e, categoryId, [])
  {
    if FindCategoryByName(s.categories, e.category.name).None? {
      NewCategoryStep(s, es, e);
    } else {
      RowsFromMoreEntries(s, es, e);
    }
  }

  lemma UpsertSubcategoryStep(s: SeedState, es: seq<Entry>, e: Entry, categoryId: Id, done: seq<string>, n: string)
    requires SeedingEntry(s, es, e, categoryId, done) && n in e.category.subcategories
    ensures SeedingEntry(UpsertSubcategory(s, categoryId, n), es, e, categoryId, done + [n])
  {
    var s' := UpsertSubcategory(s, categoryId, n);
    if !HasKey(s.subcategories, categoryId, n) {
      var row := Subcategory(s.nextId, categoryId, n);
      assert s'.subcategories[|s.subcategories|] == row;
      var c :| c in s.categories && c.id == categoryId && c.name == e.category.name;
      assert e in es + [e];
      forall sub | sub in s'.subcategories
        ensures exists c | c in s'.categories :: c.id == sub.categoryId && Lists(es + [e], c.name, sub.name)
      {
        if sub == row {
          assert Lists(es + [e], c.name, sub.name);
        }
      }
      CoversMoreRows(s, s', es);
      forall m | m in done + [n] ensures HasKey(s'.subcategories, categoryId, m) {
        if m in done {
          var sub :| sub in s.subcategories && sub.categoryId == categoryId && sub.name == m;
          assert sub in s'.subcategories;
        }
      }
      forall i, j | 0 <= i < j < |s'.subcategories|
        ensures s'.subcategories[i].categoryId != s'.subcategories[j].categoryId || s'.subcategories[i].name != s'.subcategories[j].name
      {
        if j == |s.subcategories| {
          assert s'.subcategories[i] in s.subcategories;
        }
      }
    }
  }

  lemma {:induction false} SeedSubcategoriesStep(s: SeedState, es: seq<Entry>, e: Entry, categoryId: Id, names: seq<string>)
    requires SeedingEntry(s, es, e, categoryId, []) && names <= e.category.subcategories
    ensures SeedingEntry(SeedSubcategories(s, categoryId, names), es, e, categoryId, names)
  {
    if names != [] {
      var init, last := names[..|names| - 1], names[|names| - 1];
      assert names == init + [last];
      assert init <= e.category.subcategories;
      assert last == e.category.subcategories[|names| - 1];
      SeedSubcategoriesStep(s, es, e, categoryId, init);
      UpsertSubcategoryStep(SeedSubcategories(s, categoryId, init), es, e, categoryId, init, last);
    }
  }

  lemma SeedEntryStep(s: SeedState, es: seq<Entry>, e: Entry)
    requires SeedInv(s, es)
    ensures SeedInv(SeedEntry(s, e), es + [e])
  {
    UpsertCategoryStep(s, es, e);
    var (s', categoryId) := UpsertCategory(s, e.txType, e.category.name);
    SeedSubcategoriesStep(s', es, e, categoryId, e.category.subcategories);
    var t := SeedEntry(s, e);
    var c :| c in t.categories && c.id == categoryId && c.name == e.category.name;
    assert Covers(t, e, e.category.subcategories) by {
      forall n | n in e.category.subcategories
        ensures exists c | c in t.categories :: c.name == e.category.name && HasKey(t.subcategories, c.id, n)
      {
        assert HasKey(t.subcategories, c.id, n);
      }
    }
    forall e' | e' in es + [e] ensures Covers(t, e', e'.category.subcategories) {
      if e' !in es {
        assert e' == e;
      }
    }
  }

  /** Seeding an entry list establishes `SeedInv` for it. */
  lemma {:induction false} SeedEntriesInv(es: seq<Entry>)
    ensures SeedInv(SeedEntries(es), es)
  {
    if es != [] {
      var init := es[..|es| - 1];
      assert es == init + [es[|es| - 1]];
      SeedEntriesInv(init);
      SeedEntryStep(SeedEntries(init), init, es[|es| - 1]);
    }
  }
  /* "Transferencias Internas" is absent from every category but "Gastos Financieros".
     The catalogue is checked a few categories at a time, which keeps each proof small. */

  lemma NoInternalTransferInIncomeGroup()
    ensures InternalTransferName !in BeneficiosGubernamentales.subcategories
    ensures InternalTransferName !in EmpleoPrimario.subcategories
    ensures InternalTransferName !in IngresosDeAlquiler.subcategories
    ensures InternalTransferName !in IngresosDeInversion.subcategories
    ensures InternalTransferName !in IngresoDeJubilacion.subcategories
    ensures InternalTransferName !in IngresosDiversos.subcategories
    ensures InternalTransferName !in OtrosIngresos.subcategories
    ensures InternalTransferName !in Reembolsos.subcategories
    ensures InternalTransferName !in TrabajoIndependiente.subcategories
  {
  }

  lemma NoInternalTransferInAhorrosToCuidadoDeLaSalud()
    ensures InternalTransferName !in AhorrosEInversiones.subcategories
    ensures InternalTransferName !in Alimentos.subcategories
    ensures InternalTransferName !in Alojamiento.subcategories
    ensures InternalTransferName !in ArticulosDeUsoDomestico.subcategories
    ensures InternalTransferName !in CuidadoDeLaSalud.subcategories
  {
  }

  lemma NoInternalTransferInCuidadoDeNinosToEducacion()
    ensures InternalTransferName !in CuidadoDeNinos.subcategories
    ensures InternalTransferName !in CuidadoDeMascotas.subcategories
    ensures InternalTransferName !in DeportesYFitness.subcategories
    ensures InternalTransferName !in Educacion.subcategories
  {
  }

  lemma NoInternalTransferInEntretenimientoToMiscelaneos()
    ensures InternalTransferName !in Entretenimiento.subcategories
    ensures InternalTransferName !in GastosDeTrabajo.subcategories
    ensures InternalTransferName !in Miscelaneos.subcategories
  {
  }

  lemma NoInternalTransferInPagosDeDeudaToTecnologia()
    ensures InternalTransferName !in PagosDeDeuda.subcategories
    ensures InternalTransferName !in RegalosYDonaciones.subcategories
    ensures InternalTransferName !in RopaYCuidadoPersonal.subcategories
    ensures InternalTransferName !in Seguros.subcategories
    ensures InternalTransferName !in ServiciosProfesionales.subcategories
    ensures InternalTransferName !in TecnologiaYServiciosDigitales.subcategories
  {
  }

  lemma NoInternalTransferInTransporteToViajes()
    ensures InternalTransferName !in Transporte.subcategories
    ensures InternalTransferName !in Utilidades.subcategories
    ensures InternalTransferName !in Viajes.subcategories
  {
  }

  /** "Transferencias Internas" is listed only by the expense category "Gastos
      Financieros". */
  lemma InternalTransferOnlyUnderGastosFinancieros(e: Entry)
    requires e in Entries(Catalog) && InternalTransferName in e.category.subcategories
    ensures e == Entry(Expense, GastosFinancieros)
  {
    EntriesOfGroups(Catalog, e);
    if e.category in ExpenseCategories {
      InternalTransferOnlyExpenseUnderGastosFinancieros(e.category);
    } else if e.category in IncomeCategories {
      NoInternalTransferInIncomeGroup();
    }
  }

  lemma InternalTransferOnlyExpenseUnderGastosFinancieros(c: CategorySeed)
    requires c in ExpenseCategories && InternalTransferName in c.subcategories
    ensures c == GastosFinancieros
  {
    NoInternalTransferInAhorrosToCuidadoDeLaSalud();
    NoInternalTransferInCuidadoDeNinosToEducacion();
    NoInternalTransferInEntretenimientoToMiscelaneos();
    NoInternalTransferInPagosDeDeudaToTecnologia();
    NoInternalTransferInTransporteToViajes();
  }

  /** No category of another group is named "Gastos Financieros". */
  lemma GastosFinancierosIsAnExpense(e: Entry)
    requires e in Entries(Catalog) && e.category.name == GastosFinancieros.name
    ensures e.txType == Expense
  {
    EntriesOfGroups(Catalog, e);
  }

  /** With distinct identifiers, the category lookup by id finds the row itself. */
  lemma {:induction false} FindCategoryOfRow(cats: seq<Category>, c: Category)
    requires forall i, j | 0 <= i < j < |cats| :: cats[i].id != cats[j].id
    requires c in cats
    ensures FindCategory(cats, c.id) == Some(c)
  {
    if cats[0] != c {
      var k :| 0 <= k < |cats| && cats[k] == c;
      assert cats[k] == cats[1..][k - 1];
      FindCategoryOfRow(cats[1..], c);
    }
  }

  /** Seeding keys category rows by name and subcategory rows by (category, name): in the
      seeded tables neither key repeats. */
  lemma SeededKeysUnique(groups: seq<TypeGroup>)
    ensures CategoryNamesUnique(Seeded(groups).categories)
    ensures SubcategoryKeysUnique(Seeded(groups).subcategories)
  {
    SeedEntriesInv(Entries(groups));
  }

  /** Every seeded subcategory row hangs under a seeded category row; some catalogue
      category of that name lists the subcategory, and some catalogue category of that
      name has the row's type. */
  lemma SeededRowOrigin(groups: seq<TypeGroup>, sub: Subcategory)
    requires sub in Seeded(groups).subcategories
    ensures var c := FindCategory(Seeded(groups).categories, sub.categoryId);
      && c.Some?
      && Lists(Entries(groups), c.value.name, sub.name)
      && exists e | e in Entries(groups) :: e.category.name == c.value.name && e.txType == c.value.txType
  {
    var s := Seeded(groups);
    SeedEntriesInv(Entries(groups));
    var c :| c in s.categories && c.id == sub.categoryId && Lists(Entries(groups), c.name, sub.name);
    FindCategoryOfRow(s.categories, c);
  }

  /** Every subcategory the catalogue lists has a seeded row under the seeded category
      row of its category's name. */
  lemma SeededListedRow(groups: seq<TypeGroup>, e: Entry, n: string)
    requires e in Entries(groups) && n in e.category.subcategories
    ensures exists sub | sub in Seeded(groups).subcategories ::
      && sub.name == n
      && FindCategory(Seeded(groups).categories, sub.categoryId).Some?
      && FindCategory(Seeded(groups).categories, sub.categoryId).value.name == e.category.name
  {
    var s := Seeded(groups);
    SeedEntriesInv(Entries(groups));
    var c :| c in s.categories && c.name == e.category.name && HasKey(s.subcategories, c.id, n);
    var sub :| sub in s.subcategories && sub.categoryId == c.id && sub.name == n;
    FindCategoryOfRow(s.categories, c);
  }

  /** A subcategory `name` under an INCOME category exists after seeding only if some
      category listing `name` shares its name with an INCOME category. */
  lemma NoIncomeRowUnlessListed(groups: seq<TypeGroup>, name: string)
    requires forall e, e' | e in Entries(groups) && e' in Entries(groups) ::
      name in e.category.subcategories && e'.category.name == e.category.name ==> e'.txType != Income
    ensures FindByNameAndType(Seeded(groups).subcategories, Seeded(groups).categories, name, Income).None?
  {
    var s := Seeded(groups);
    var r := FindByNameAndType(s.subcategories, s.categories, name, Income);
    if r.Some? {
      SeededRowOrigin(groups, r.value);
    }
  }

  /** On the seeded catalogue the internal-transfer lookup of `createTransfer` finds the
      expense half but never the income half, so both sentinels are never found. */
  lemma SeededCatalogLacksTransferSentinels()
    ensures FindByNameAndType(Seeded(Catalog).subcategories, Seeded(Catalog).categories, InternalTransferName, Expense).Some?
    ensures FindByNameAndType(Seeded(Catalog).subcategories, Seeded(Catalog).categories, InternalTransferName, Income).None?
    ensures TransferActions.TransferSentinels(Seeded(Catalog).subcategories, Seeded(Catalog).categories).None?
  {
    var s := Seeded(Catalog);
    forall e, e' | e in Entries(Catalog) && e' in Entries(Catalog) &&
      InternalTransferName in e.category.subcategories && e'.category.name == e.category.name
      ensures e'.txType != Income
    {
      InternalTransferOnlyUnderGastosFinancieros(e);
      GastosFinancierosIsAnExpense(e');
    }
    NoIncomeRowUnlessListed(Catalog, InternalTransferName);
    var gf := Entry(Expense, GastosFinancieros);
    EntriesOfGroups(Catalog, gf);
    assert Catalog[1] in Catalog;
    SeededListedRow(Catalog, gf, InternalTransferName);
    var sub :| sub in s.subcategories && sub.name == InternalTransferName
      && FindCategory(s.categories, sub.categoryId).Some?
      && FindCategory(s.categories, sub.categoryId).value.name == GastosFinancieros.name;
    SeededRowOrigin(Catalog, sub);
    var c := FindCategory(s.categories, sub.categoryId).value;
    var e' :| e' in Entries(Catalog) && e'.category.name == c.name && e'.txType == c.txType;
    GastosFinancierosIsAnExpense(e');
    assert UnderType(s.categories, sub, Expense);
  }

  /** The adjustment group is the single category "Ajustes" listing the two sentinels the
      wallet actions look up, and on the seeded catalogue both lookups succeed. */
  lemma SeededCatalogHasWalletSentinels()
    ensures AdjustmentCategories == [Ajustes] && Ajustes.subcategories == [WalletAdjustmentName, InitialBalanceName]
    ensures FindFirstByName(Seeded(Catalog).subcategories, InitialBalanceName).Some?
    ensures FindFirstByName(Seeded(Catalog).subcategories, WalletAdjustmentName).Some?
  {
    var e := Entry(Adjustment, Ajustes);
    EntriesOfGroups(Catalog, e);
    assert Catalog[2] in Catalog;
    SeededListedRow(Catalog, e, InitialBalanceName);
    SeededListedRow(Catalog, e, WalletAdjustmentName);
  }

  /** Subcategory names are unique per category only: the seeded tables hold two rows
      named "Cuidado de la piel", under two different categories. */
  lemma SeededSkinCareTwice()
    ensures exists a, b | a in Seeded(Catalog).subcategories && b in Seeded(Catalog).subcategories ::
      a.name == "Cuidado de la piel" && b.name == "Cuidado de la piel" && a.categoryId != b.categoryId
  {
    var s := Seeded(Catalog);
    var health, personal := Entry(Expense, CuidadoDeLaSalud), Entry(Expense, RopaYCuidadoPersonal);
    EntriesOfGroups(Catalog, health);
    EntriesOfGroups(Catalog, personal);
    assert Catalog[1] in Catalog;
    SeededListedRow(Catalog, health, "Cuidado de la piel");
    SeededListedRow(Catalog, personal, "Cuidado de la piel");
    var a :| a in s.subcategories && a.name == "Cuidado de la piel"
      && FindCategory(s.categories, a.categoryId).Some?
      && FindCategory(s.categories, a.categoryId).value.name == CuidadoDeLaSalud.name;
    var b :| b in s.subcategories && b.name == "Cuidado de la piel"
      && FindCategory(s.categories, b.categoryId).Some?
      && FindCategory(s.categories, b.categoryId).value.name == RopaYCuidadoPersonal.name;
    assert a.categoryId != b.categoryId;
  }

  /** On the seeded catalogue `createWallet` finds its sentinel and never fails, and
      `updateWallet` fails only on an unknown wallet. */
  lemma SeededWalletActionsFindSentinels(t: Tables, userId: Id, create: WalletActions.CreateWalletInput,
                                         update: WalletActions.UpdateWalletInput, now: Date, walletId: Id, txId: Id)
    ensures WalletActions.CreateWalletOutcome(t, Seeded(Catalog).subcategories, userId, create, walletId, txId).Ok?
    ensures WalletActions.UpdateWalletOutcome(t, Seeded(Catalog).subcategories, update, now, txId).Err? <==>
      update.id !in t.wallets
  {
    SeededCatalogHasWalletSentinels();
  }

  /** On the seeded catalogue every transfer between two funded wallets with known rates
      fails with "Internal transfer subcategories not found". Performed atomically it
      changes nothing; as written, the Transfer row and the moved balances stay behind and
      the ledger invariant breaks. */
  lemma SeededTransferLeavesPartialWrites(t: Tables, rates: Snapshot, input: TransferActions.CreateTransferInput,
                                          toWrittenLast: bool, transferId: Id, debitId: Id, creditId: Id)
    requires Balanced(t.wallets, t.transactions)
    requires input.fromWalletId in t.wallets && input.toWalletId in t.wallets
    requires input.fromWalletId != input.toWalletId && input.fromAmount != 0.0
    requires t.wallets[input.fromWalletId].balance - input.fromAmount >= 0.0
    requires t.wallets[input.toWalletId].balance + input.toAmount >= 0.0
    requires RateToUsd(rates, t.wallets[input.fromWalletId].currency).Some?
    requires RateToUsd(rates, t.wallets[input.toWalletId].currency).Some?
    ensures var subs, cats := Seeded(Catalog).subcategories, Seeded(Catalog).categories;
      TransferActions.CreateTransferOutcome(t, subs, cats, rates, input, toWrittenLast, transferId, debitId, creditId)
        == Err(TransferSubcategoriesNotFound)
    ensures var subs, cats := Seeded(Catalog).subcategories, Seeded(Catalog).categories;
      var (after, outcome) := TransferActions.CreateTransferAsWritten(t, subs, cats, rates, input, toWrittenLast,
                                                                      transferId, debitId, creditId);
      && outcome == Err(TransferSubcategoriesNotFound)
      && transferId in after.transfers
      && after.transactions == t.transactions
      && !Balanced(after.wallets, after.transactions)
  {
    var subs, cats := Seeded(Catalog).subcategories, Seeded(Catalog).categories;
    SeededCatalogLacksTransferSentinels();
    TransferActions.AsWrittenLeavesPartialWrites(t, subs, cats, rates, input, toWrittenLast, transferId, debitId, creditId);
  }
}
