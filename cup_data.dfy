/** lib/data/cup-to-grams.ts: the raw table of grams per cup, as written
    in the source (lines 25-204). */
module CupData {

  /** Millilitres per cup of a liquid. */
  const LIQUID: int := 240

  /** A `CupDataEntry`: grams per cup, or a table of modifiers. Keys hold
      comma-separated alternatives, and a leading `*` marks the default. */
  datatype Raw = Num(grams: int) | Nested(entries: seq<RawEntry>)

  datatype RawEntry = RawEntry(key: string, value: Raw)

  /** `cupConversions`, in the order of its keys. */
  const CupConversions: seq<RawEntry> := [
    RawEntry("flour", Nested([
      RawEntry("*white", Num(120)),
      RawEntry("plain", Num(120)),
      RawEntry("sieved", Num(110)),
      RawEntry("allpurpose, ap, all purpose", Nested([
        RawEntry("*", Num(120)),
        RawEntry("well sifted, wellsifted", Num(110))
      ])),
      RawEntry("wheat", Num(140)),
      RawEntry("bread", Num(136)),
      RawEntry("cake", Num(114)),
      RawEntry("rice", Num(130)),
      RawEntry("pastry", Num(130)),
      RawEntry("rye", Num(120))
    ])),
    RawEntry("sugar", Nested([
      RawEntry("*white", Num(200)),
      RawEntry("caster", Num(200)),
      RawEntry("superfine, super fine", Num(225)),
      RawEntry("granulated", Nested([
        RawEntry("*cane", Num(200))
      ])),
      RawEntry("brown", Nested([
        RawEntry("*", Num(180)),
        RawEntry("soft", Num(220)),
        RawEntry("light", Num(220)),
        RawEntry("packed", Num(220)),
        RawEntry("dark", Num(200))
      ])),
      RawEntry("muscovado", Num(200)),
      RawEntry("icing", Num(120)),
      RawEntry("confectioners, confectioner", Num(128))
    ])),
    RawEntry("butter, margarine", Num(225)),
    RawEntry("mayo, mayonnaise", Num(228)),
    RawEntry("molasses, black treacle", Num(325)),
    RawEntry("honey", Num(340)),
    RawEntry("syrup, treacle", Nested([
      RawEntry("corn, golden, maple", Num(340))
    ])),
    RawEntry("cornstarch, cornflour, corn starch, corn flour, maize flour", Nested([
      RawEntry("*", Num(120)),
      RawEntry("masa", Num(114))
    ])),
    RawEntry("cornmeal, polenta, corn meal", Num(150)),
    RawEntry("barley", Nested([
      RawEntry("*pearl, pearled", Num(200))
    ])),
    RawEntry("shortening", Nested([
      RawEntry("*vegetable", Num(190))
    ])),
    RawEntry("lard", Num(225)),
    RawEntry("sultana, raisin", Num(170)),
    RawEntry("golden raisin", Num(150)),
    RawEntry("currant", Num(150)),
    RawEntry("blueberry", Num(100)),
    RawEntry("raspberry", Num(120)),
    RawEntry("strawberry", Num(200)),
    RawEntry("date, pitted date", Num(225)),
    RawEntry("dried cranberry", Num(140)),
    RawEntry("fresh cranberry", Num(110)),
    RawEntry("banana", Num(184)),
    RawEntry("jam, jelly, preserve", Num(325)),
    RawEntry("mincemeat", Num(225)),
    RawEntry("pumpkin puree", Num(250)),
    RawEntry("almond", Nested([
      RawEntry("*whole", Num(140)),
      RawEntry("flaked", Num(85)),
      RawEntry("ground", Num(110))
    ])),
    RawEntry("rice", Nested([
      RawEntry("*cooked", Num(200)),
      RawEntry("uncooked", Num(190))
    ])),
    RawEntry("couscous", Nested([
      RawEntry("*cooked", Num(175)),
      RawEntry("uncooked", Num(180))
    ])),
    RawEntry("oat", Nested([
      RawEntry("*uncooked", Num(90)),
      RawEntry("rolled", Num(85)),
      RawEntry("porridge", Num(85))
    ])),
    RawEntry("peanut", Nested([
      RawEntry("*whole, shelled", Num(150)),
      RawEntry("chopped", Num(120)),
      RawEntry("butter", Num(250))
    ])),
    RawEntry("walnut", Nested([
      RawEntry("*whole", Num(100)),
      RawEntry("chopped", Num(125))
    ])),
    RawEntry("peanut butter", Num(250)),
    RawEntry("hazelnut", Num(135)),
    RawEntry("lentil", Num(190)),
    RawEntry("chocolate chip", Num(150)),
    RawEntry("cocoa powder", Num(125)),
    RawEntry("chocolate", Nested([
      RawEntry("*grated", Num(128)),
      RawEntry("melted", Num(227))
    ])),
    RawEntry("salt, table salt", Num(300)),
    RawEntry("soy sauce", Num(276)),
    RawEntry("miso", Num(276)),
    RawEntry("mirin", Num(276)),
    RawEntry("cheese", Nested([
      RawEntry("*cream, soft", Num(120)),
      RawEntry("grated", Nested([
        RawEntry("*", Num(110)),
        RawEntry("cheddar", Num(120)),
        RawEntry("parmesan", Num(80))
      ])),
      RawEntry("powder, powdered", Num(108))
    ])),
    RawEntry("yoghurt, yogurt", Num(252)),
    RawEntry("pecan", Nested([
      RawEntry("*whole", Num(125)),
      RawEntry("chopped", Num(120)),
      RawEntry("halved", Num(100)),
      RawEntry("halfed", Num(100))
    ])),
    RawEntry("nut", Nested([
      RawEntry("*whole", Num(140)),
      RawEntry("chopped", Num(130)),
      RawEntry("ground", Num(120))
    ])),
    RawEntry("coconut", Nested([
      RawEntry("*cubed, desiccated", Num(100)),
      RawEntry("shredded", Num(75))
    ])),
    RawEntry("breadcrumb", Nested([
      RawEntry("*plain", Num(120)),
      RawEntry("dry", Num(150)),
      RawEntry("fresh", Num(60))
    ])),
    RawEntry("panko, panko breadcrumbs", Num(48)),
    RawEntry("graham crumb", Num(225)),
    RawEntry("dry pasta", Num(120)),
    RawEntry("rhubarb", Num(113)),
    RawEntry("poppy seed", Num(142)),
    RawEntry("whipping cream", Num(227)),
    RawEntry("water", Num(LIQUID)),
    RawEntry("wine", Nested([
      RawEntry("*cooking", Num(LIQUID))
    ])),
    RawEntry("oil", Num(LIQUID)),
    RawEntry("vinegar", Num(LIQUID)),
    RawEntry("tomato", Nested([
      RawEntry("puree, pureed, pur\U{E9}e, pur\U{E9}ed", Num(276)),
      RawEntry("ketchup", Num(288))
    ])),
    RawEntry("worchester sauce, worchestershire sauce", Num(288)),
    RawEntry("chuunou sauce, tonkatsu sauce, takoyaki sauce, okonomiyaki sauce", Num(300)),
    RawEntry("mentsuyu", Num(276))
  ]
}
