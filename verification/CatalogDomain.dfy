/** The catalog's entities and the rules their rows obey. */
module CatalogDomain {
  import opened Wrappers
  import opened Timestamps
  import opened Cursor

  datatype Product = Product(
    id: Int64, productCode: string, externalProductId: string, title: string, slug: string,
    shortDescription: string, description: string, additionalInfo: string,
    department: string, category: string, subcategory: string, tags: seq<string>,
    baseSku: string, primaryImageUrl: string, active: bool, updatedAt: Time)

  /** Validation keeps the text of the status, so that an empty one can be expressed. */
  datatype ProductVariant = ProductVariant(
    id: Int64, productId: Int64, sku: string, retailPriceCents: int, salePriceCents: Option<int>,
    currency: string, stockQuantity: int, stockStatus: string, active: bool, updatedAt: Time)

  datatype ProductImage = ProductImage(
    id: Int64, productId: Int64, variantId: Option<int>, url: string, sortOrder: int, isMain: bool)

  /** The characters unicode.IsSpace accepts. */
  predicate IsSpace(c: char) {
    || '\t' <= c <= '\r' || c == ' ' || c == '\U{85}' || c == '\U{a0}' || c == '\U{1680}'
    || '\U{2000}' <= c <= '\U{200a}' || c == '\U{2028}' || c == '\U{2029}' || c == '\U{202f}'
    || c == '\U{205f}' || c == '\U{3000}'
  }

  /** strings.TrimSpace leaves nothing. */
  predicate Blank(s: string) {
    forall i :: 0 <= i < |s| ==> IsSpace(s[i])
  }

  /** The code points with the Unicode property White_Space. */
  const WHITE_SPACE := {0x9, 0xA, 0xB, 0xC, 0xD, 0x20, 0x85, 0xA0, 0x1680, 0x2000, 0x2001, 0x2002, 0x2003, 0x2004,
                        0x2005, 0x2006, 0x2007, 0x2008, 0x2009, 0x200A, 0x2028, 0x2029, 0x202F, 0x205F, 0x3000}

  lemma SpaceIsWhiteSpace(c: char)
    ensures IsSpace(c) <==> c as int in WHITE_SPACE
  {
  }

  function TrimLeft(s: string): string {
    if s != "" && IsSpace(s[0]) then TrimLeft(s[1..]) else s
  }

  function TrimRight(s: string): string {
    if s != "" && IsSpace(s[|s| - 1]) then TrimRight(s[..|s| - 1]) else s
  }

  /** strings.TrimSpace */
  function TrimSpace(s: string): string {
    TrimRight(TrimLeft(s))
  }

  lemma {:induction false} TrimLeftCuts(s: string) returns (cut: string)
    ensures s == cut + TrimLeft(s) && Blank(cut) && (TrimLeft(s) != "" ==> !IsSpace(TrimLeft(s)[0]))
  {
    if s != "" && IsSpace(s[0]) {
      var rest := TrimLeftCuts(s[1..]);
      cut := [s[0]] + rest;
    } else {
      cut := "";
    }
  }

  lemma {:induction false} TrimRightCuts(s: string) returns (cut: string)
    ensures s == TrimRight(s) + cut && Blank(cut)
    ensures TrimRight(s) != "" ==> !IsSpace(TrimRight(s)[|TrimRight(s)| - 1]) && TrimRight(s)[0] == s[0]
  {
    if s != "" && IsSpace(s[|s| - 1]) {
      var rest := TrimRightCuts(s[..|s| - 1]);
      cut := rest + [s[|s| - 1]];
    } else {
      cut := "";
    }
  }

  /**
   * Trimming cuts off the white space at both ends and nothing else; so what Validate
   * refuses, a text with nothing left, is one of white space alone.
   */
  lemma BlankIffTrimmedAway(s: string) returns (left: string, right: string)
    ensures s == left + TrimSpace(s) + right && Blank(left) && Blank(right)
    ensures TrimSpace(s) != "" ==> !IsSpace(TrimSpace(s)[0]) && !IsSpace(TrimSpace(s)[|TrimSpace(s)| - 1])
    ensures Blank(s) <==> TrimSpace(s) == ""
  {
    left := TrimLeftCuts(s);
    right := TrimRightCuts(TrimLeft(s));
    if TrimSpace(s) != "" {
      assert s[|left|] == TrimSpace(s)[0];
    }
  }

  predicate ValidProduct(p: Product) {
    !Blank(p.productCode) && !Blank(p.title) && !Blank(p.slug)
  }

  predicate ValidVariant(v: ProductVariant) {
    && !Blank(v.sku) && v.productId > 0 && !Blank(v.currency)
    && v.retailPriceCents >= 0 && (v.salePriceCents.Some? ==> v.salePriceCents.value >= 0)
    && v.stockQuantity >= 0 && v.stockStatus in {"IN_STOCK", "LOW_STOCK", "OUT_OF_STOCK"}
  }
}
