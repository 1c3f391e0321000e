/** The product entity (ProductModel): an identifier, a name, a value and the
    hypermedia links it inherits from RepresentationModel; its `equals` and
    its `toString`. */
module ProductModel {
  import opened Wrappers

  /** Product identifiers. The source uses random UUIDs; only their identity
      matters here, so they are naturals. */
  type Id = nat

  /** BigDecimal amounts. The layer only copies them, so they are integers. */
  type Decimal = int

  /** A hypermedia link, as a (rel, target) tag. */
  datatype Link =
    /** rel "self", pointing at GET /products/{id} for the given id. */
    | SelfLink(target: Option<Id>)
    /** rel "Products List:", pointing at the unpaged GET /products. */
    | ProductsListLink

  /** A product. `id` is None until the store assigns one on first save;
      `name` and `value` are unconstrained at this layer. */
  datatype Product = Product(id: Option<Id>, name: string, value: Decimal, links: seq<Link>)

  /** What `equals(Object o)` can be handed: null, an object of another
      class, or another product. */
  datatype Other = NullRef | OtherClass | AProduct(product: Product)

  /** ProductModel.equals: same class, equal links (the superclass check),
      equal id and equal name; the value takes no part. */
  function Equals(p: Product, o: Other): (b: bool)
    ensures b <==> o.AProduct? && p.(value := o.product.value) == o.product
  {
    match o
    case NullRef => false
    case OtherClass => false
    case AProduct(q) => p.links == q.links && p.id == q.id && p.name == q.name
  }

  /** Two products are equal exactly when they agree on everything but the value. */
  lemma EqualsUpToValue(p: Product, q: Product)
    ensures Equals(p, AProduct(q)) <==> p.(value := q.value) == q
  {
  }

  /** `equals` is an equivalence on products and is false against null or
      an object of another class. */
  lemma EqualsIsEquivalence(p: Product, q: Product, s: Product)
    ensures Equals(p, AProduct(p))
    ensures Equals(p, AProduct(q)) ==> Equals(q, AProduct(p))
    ensures Equals(p, AProduct(q)) && Equals(q, AProduct(s)) ==> Equals(p, AProduct(s))
    ensures !Equals(p, NullRef) && !Equals(p, OtherClass)
  {
  }

  /** Changing only the value never changes what a product equals. */
  lemma EqualsIgnoresValue(p: Product, v: Decimal, o: Other)
    ensures Equals(p.(value := v), o) == Equals(p, o)
  {
  }

  // ---- toString -------------------------------------------------------

  predicate IsDigits(s: string) {
    forall i :: 0 <= i < |s| ==> '0' <= s[i] <= '9'
  }

  function DigitChar(d: nat): (c: char)
    requires d < 10
    ensures '0' <= c <= '9' && c as int - '0' as int == d
  {
    ('0' as int + d) as char
  }

  /** Decimal rendering of a natural, most significant digit first. */
  function NatToString(n: nat): (s: string)
    ensures |s| >= 1 && IsDigits(s)
    decreases n
  {
    if n < 10 then [DigitChar(n)] else NatToString(n / 10) + [DigitChar(n % 10)]
  }

  /** Reads a string of decimal digits back as a natural. */
  function ParseNat(s: string): nat
    requires IsDigits(s)
  {
    if s == [] then 0 else ParseNat(s[..|s| - 1]) * 10 + (s[|s| - 1] as int - '0' as int)
  }

  /** The decimal rendering is read back as the number it renders. */
  lemma {:induction false} NatToStringRoundTrip(n: nat)
    ensures ParseNat(NatToString(n)) == n
    decreases n
  {
    if n >= 10 {
      NatToStringRoundTrip(n / 10);
      var s := NatToString(n);
      assert s[..|s| - 1] == NatToString(n / 10);
    }
  }

  /** Java's rendering of an integral BigDecimal (scale 0). */
  function DecimalToString(v: Decimal): string {
    if v < 0 then "-" + NatToString(-v) else NatToString(v)
  }

  /** String concatenation renders a null id as "null". */
  function IdToString(id: Option<Id>): string {
    match id
    case None => "null"
    case Some(k) => NatToString(k)
  }

  /** ProductModel.toString. */
  function ToString(p: Product): string {
    "ProductModel{idProduct=" + IdToString(p.id) + ", name='" + p.name + "'"
      + ", value=" + DecimalToString(p.value) + "}"
  }

  /** The rendering is `ProductModel{idProduct=<id>, name='<name>', value=<value>}`:
      the fixed frame around the three fields, the name verbatim, the links omitted. */
  lemma ToStringLayout(p: Product)
    ensures var s := ToString(p);
      && |s| == 41 + |IdToString(p.id)| + |p.name| + |DecimalToString(p.value)|
      && s[..23] == "ProductModel{idProduct="
      && s[23..23 + |IdToString(p.id)|] == IdToString(p.id)
      && s[23 + |IdToString(p.id)|..31 + |IdToString(p.id)|] == ", name='"
      && s[31 + |IdToString(p.id)|..31 + |IdToString(p.id)| + |p.name|] == p.name
      && s[31 + |IdToString(p.id)| + |p.name|..|s| - 1] == "', value=" + DecimalToString(p.value)
      && s[|s| - 1] == '}'
    ensures forall ls: seq<Link> :: ToString(p.(links := ls)) == ToString(p)
  {
  }

  /** A stored id is rendered so that it can be read back from the text. */
  lemma ToStringShowsId(p: Product, k: Id)
    requires p.id == Some(k)
    ensures var s := ToString(p); var w := |NatToString(k)|;
      IsDigits(s[23..23 + w]) && ParseNat(s[23..23 + w]) == k
  {
    var s := ToString(p);
    var w := |NatToString(k)|;
    assert s[23..23 + w] == NatToString(k);
    NatToStringRoundTrip(k);
  }
}
