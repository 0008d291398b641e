/**
 * The built-in film catalogue (src/lib/catalog.ts): the constant list of
 * eight films and the three lookups over it.
 */
module Catalog {
  import opened Wrappers
  import opened Movies

  /** `catalogMovies`, in source order. */
  const CatalogMovies: seq<Movie> := [
    Movie(
      id := "1",
      title := "Ilha do Medo (2010)",
      description := "Dois agentes federais investigam o desaparecimento de uma paciente de um hospital psiquiátrico localizado em uma ilha remota.",
      videoUrl := "https://test-videos.co.uk/vids/bigbuckbunny/mp4/h264/1080/Big_Buck_Bunny_1080_10s_1MB.mp4",
      posterUrl := "https://peach.blender.org/wp-content/uploads/bbb-splash.png",
      streamUrl := "https://sempra.pro/a1/out/old/6/1167/1167_74158594ilha-do-medo-2010.m3u8",
      year := 2010,
      duration := 138,
      genre := "Thriller"),
    Movie(
      id := "2",
      title := "Interestelar (2014)",
      description := "Uma equipe de exploradores viaja através de um buraco de minhoca no espaço na tentativa de garantir a sobrevivência da humanidade.",
      videoUrl := "https://test-videos.co.uk/vids/elephantsdream/mp4/h264/1080/Elephants_Dream_1080_10s_1MB.mp4",
      posterUrl := "https://upload.wikimedia.org/wikipedia/commons/thumb/c/c5/Elephants_Dream_poster.jpg/1200px-Elephants_Dream_poster.jpg",
      streamUrl := "https://video.wixstatic.com/video/85a3b3_0a4c4dc2d11b41b881f8ded501255716/720p/mp4/file.mp4",
      year := 2014,
      duration := 169,
      genre := "Ficção Científica"),
    Movie(
      id := "3",
      title := "O Poderoso Chefão (1972)",
      description := "A saga da família Corleone, liderada por Don Vito Corleone, e a ascensão ao poder de seu filho Michael.",
      videoUrl := "https://test-streams.mux.dev/x36xhzz/x36xhzz.m3u8",
      posterUrl := "https://image.mux.com/x36xhzz/thumbnail.jpg",
      streamUrl := "https://play.prod.gcp.vix.services/godfather_pt1_pt/godfather_pt1_pt_1-1/play_v1_hls_1080p.m3u8",
      year := 1972,
      duration := 175,
      genre := "Crime"),
    Movie(
      id := "4",
      title := "Clube da Luta (1999)",
      description := "Um homem insone e um fabricante de sabão misterioso formam um clube de luta subterrâneo que evolui para muito mais.",
      videoUrl := "https://test-videos.co.uk/vids/bigbuckbunny/mp4/h264/1080/Big_Buck_Bunny_1080_10s_1MB.mp4",
      posterUrl := "https://peach.blender.org/wp-content/uploads/bbb-splash.png",
      streamUrl := "https://play.prod.gcp.vix.services/fight-club_pt/fight-club_pt_1-1/play_v1_hls_1080p.m3u8",
      year := 1999,
      duration := 139,
      genre := "Drama"),
    Movie(
      id := "5",
      title := "Pulp Fiction (1994)",
      description := "As vidas de dois assassinos da máfia, um boxeador, uma esposa de gangster e um par de assaltantes de restaurantes se entrelaçam em quatro histórias de violência e redenção.",
      videoUrl := "https://test-videos.co.uk/vids/bigbuckbunny/mp4/h264/1080/Big_Buck_Bunny_1080_10s_1MB.mp4",
      posterUrl := "https://peach.blender.org/wp-content/uploads/bbb-splash.png",
      streamUrl := "https://play.prod.gcp.vix.services/pulp-fiction_pt/pulp-fiction_pt_1-1/play_v1_hls_1080p.m3u8",
      year := 1994,
      duration := 154,
      genre := "Crime"),
    Movie(
      id := "6",
      title := "A Origem (2010)",
      description := "Um ladrão especializado em extrair segredos do subconsciente das pessoas durante o estado de sonho é oferecido a chance de ter sua vida normal de volta se conseguir realizar a tarefa impossível de plantar uma ideia na mente de alguém.",
      videoUrl := "https://test-videos.co.uk/vids/bigbuckbunny/mp4/h264/1080/Big_Buck_Bunny_1080_10s_1MB.mp4",
      posterUrl := "https://peach.blender.org/wp-content/uploads/bbb-splash.png",
      streamUrl := "https://play.prod.gcp.vix.services/inception_pt/inception_pt_1-1/play_v1_hls_1080p.m3u8",
      year := 2010,
      duration := 148,
      genre := "Ação"),
    Movie(
      id := "7",
      title := "Cidade de Deus (2002)",
      description := "A história da formação do crime organizado em uma favela do Rio de Janeiro, desde os anos 1960 até o início dos anos 1980, através dos olhos de um jovem chamado Buscapé.",
      videoUrl := "https://test-videos.co.uk/vids/bigbuckbunny/mp4/h264/1080/Big_Buck_Bunny_1080_10s_1MB.mp4",
      posterUrl := "https://peach.blender.org/wp-content/uploads/bbb-splash.png",
      streamUrl := "https://play.prod.gcp.vix.services/city-of-god_pt/city-of-god_pt_1-1/play_v1_hls_1080p.m3u8",
      year := 2002,
      duration := 130,
      genre := "Crime"),
    Movie(
      id := "8",
      title := "O Iluminado (1980)",
      description := "Um escritor e ex-professor torna-se zelador de inverno em um hotel isolado nas montanhas do Colorado, onde fica obcecado com forças sobrenaturais.",
      videoUrl := "https://test-videos.co.uk/vids/bigbuckbunny/mp4/h264/1080/Big_Buck_Bunny_1080_10s_1MB.mp4",
      posterUrl := "https://peach.blender.org/wp-content/uploads/bbb-splash.png",
      streamUrl := "https://play.prod.gcp.vix.services/shining_pt/shining_pt_1-1/play_v1_hls_1080p.m3u8",
      year := 1980,
      duration := 146,
      genre := "Terror")
  ]

  /** getMovieById: the first catalogue entry with that id, or nothing. */
  function GetMovieById(id: string): (r: Option<Movie>)
    ensures r.Some? ==> r.value in CatalogMovies && r.value.id == id
    ensures r.None? <==> forall m :: m in CatalogMovies ==> m.id != id
  {
    FindById(CatalogMovies, id)
  }

  /** The catalogue ids are "1" to "8", distinct. */
  lemma CatalogIds()
    ensures |CatalogMovies| == 8
    ensures forall k :: 0 <= k < 8 ==> CatalogMovies[k].id == ["12345678"[k]]
    ensures DistinctMovieIds(CatalogMovies)
  {
  }

  /** Every catalogue entry is found by its own id. */
  lemma GetMovieByOwnId(m: Movie)
    requires m in CatalogMovies
    ensures GetMovieById(m.id) == Some(m)
  {
    CatalogIds();
    var k :| 0 <= k < |CatalogMovies| && CatalogMovies[k] == m;
    FindOwnId(CatalogMovies, k);
  }

  /** getAllMovies: the catalogue itself, eight entries with ids "1" to "8". */
  function GetAllMovies(): (r: seq<Movie>)
    ensures |r| == 8 && DistinctMovieIds(r)
    ensures forall k :: 0 <= k < |r| ==> r[k].id == ["12345678"[k]]
    ensures forall m :: m in r ==> GetMovieById(m.id) == Some(m)
  {
    CatalogIds();
    forall m | m in CatalogMovies ensures GetMovieById(m.id) == Some(m) {
      GetMovieByOwnId(m);
    }
    CatalogMovies
  }

  /** getMoviesByGenre: the catalogue entries of that genre, in catalogue order. */
  function GetMoviesByGenre(genre: string): (r: seq<Movie>)
    ensures forall m :: m in r <==> m in CatalogMovies && m.genre == genre
  {
    FilterByGenreMembers(CatalogMovies, genre);
    FilterByGenre(CatalogMovies, genre)
  }

  /** One step of the filter over the catalogue's suffix from `k`. */
  lemma FilterCatalogStep(k: nat, genre: string)
    requires k < |CatalogMovies|
    ensures FilterByGenre(CatalogMovies[k..], genre)
         == (if CatalogMovies[k].genre == genre then [CatalogMovies[k]] else []) + FilterByGenre(CatalogMovies[k + 1..], genre)
  {
    assert CatalogMovies[k..][1..] == CatalogMovies[k + 1..];
  }

  /** The three crime films, in catalogue order. */
  lemma CrimeFilms()
    ensures GetMoviesByGenre("Crime") == [CatalogMovies[2], CatalogMovies[4], CatalogMovies[6]]
  {
    var c := CatalogMovies;
    var g := "Crime";
    assert c[7].genre != g && c[6].genre == g && c[5].genre != g && c[4].genre == g;
    assert c[3].genre != g && c[2].genre == g && c[1].genre != g && c[0].genre != g;
    assert c[8..] == [];
    FilterCatalogStep(7, g);
    assert FilterByGenre(c[7..], g) == [];
    FilterCatalogStep(6, g);
    assert FilterByGenre(c[6..], g) == [c[6]];
    FilterCatalogStep(5, g);
    FilterCatalogStep(4, g);
    assert FilterByGenre(c[4..], g) == [c[4], c[6]];
    FilterCatalogStep(3, g);
    FilterCatalogStep(2, g);
    assert FilterByGenre(c[2..], g) == [c[2], c[4], c[6]];
    FilterCatalogStep(1, g);
    FilterCatalogStep(0, g);
    assert c[0..] == c;
  }
}
