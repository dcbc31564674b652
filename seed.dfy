/** The twenty records the product table holds when the service starts. */
module Seed {
  import opened Products
  import opened Table

  function SeedTable(): (r: seq<Product>)
    ensures |r| == 20
    ensures forall i :: 0 <= i < |r| ==> r[i].id == i + 1
  {
    [ Product(1, "Croquetas Premium", 25.0, "alimento", 50),
      Product(2, "Pelota de Goma", 5.5, "juguetes", 100),
      Product(3, "Correa para perro", 15.0, "accesorios", 30),
      Product(4, "Arena para gatos", 12.0, "accesorios", 40),
      Product(5, "Comida húmeda para gato", 2.5, "alimento", 60),
      Product(6, "Hueso de juguete", 4.0, "juguetes", 75),
      Product(7, "Dispensador de agua", 18.0, "accesorios", 25),
      Product(8, "Snacks para perro", 3.5, "alimento", 80),
      Product(9, "Ratón de peluche", 3.0, "juguetes", 90),
      Product(10, "Cepillo para mascotas", 9.0, "accesorios", 35),
      Product(11, "Pienso natural", 22.5, "alimento", 45),
      Product(12, "Cuerda para morder", 6.0, "juguetes", 50),
      Product(13, "Transportín pequeño", 29.0, "accesorios", 20),
      Product(14, "Galletas para gato", 3.8, "alimento", 70),
      Product(15, "Pelota con sonido", 7.5, "juguetes", 60),
      Product(16, "Collar reflectante", 8.0, "accesorios", 55),
      Product(17, "Comida seca para perro", 20.0, "alimento", 65),
      Product(18, "Juguete interactivo", 15.0, "juguetes", 40),
      Product(19, "Cama para mascotas", 35.0, "accesorios", 30),
      Product(20, "Snacks naturales para gato", 4.5, "alimento", 85) ]
  }

  /** The seeded ids are unique, and the first create gets id 21. */
  lemma SeedWellFormed()
    ensures UniqueIds(SeedTable())
    ensures NextId(SeedTable()) == 21
  {
  }
}
